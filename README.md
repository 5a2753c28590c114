# Circuit sketch model

A Dafny model of the logic of `sketch.js`, a p5.js sketch that animates a
field of "circuit" nodes. Each node drifts towards a random target and is
given a new target once it has arrived. Every frame, each node is connected
by a fading line to the nodes within the connection distance. There are
three views:

- the single-palette screen view (`drawCircuits`);
- the split screen view, coloured by canvas half (`drawSplitCircuits`);
- a high-resolution export drawn on an offscreen buffer (`saveHighRes`).

The keyboard selects one of seven palettes, toggles split mode and asks for
the export.

The model is imperative, as the sketch is:

- The globals `circuitNodes`, `currentPalette` and `splitMode` are the
  fields of the class `CircuitSketch.Sketch`.
- Its methods move, retarget and rebuild the node field in place.
- Every drawing call becomes a command (`Background`, `Rect`, `Point`,
  `Line`) appended to the list a method returns. Each command carries the
  stroke colour and weight in force when it is made.
- Each loop is proved against a specification function: `Frame`, `Screen`,
  `HighRes`, `Advanced`, `Retargeted` and `FreshField`.
- Lemmas prove, about those functions, the properties the sketch relies on.

Modules:

- `P5Math` (p5math.dfy) holds the formulas of p5's `lerp`, `map`, `random`
  and `dist`.
- `Palettes` (palettes.dfy) holds the seven-entry catalogue.
- `Nodes` (nodes.dfy) holds node creation, the motion step and
  retargeting.
- `Render` (render.dfy) holds what the three connection loops draw.
- `Keys` (keys.dfy) holds the key handler as a pure state machine.
- `CircuitSketch` (sketch.dfy) holds the class.

Numbers are `real`. `Math.sqrt` is an oracle `sqrt` that must return the
non-negative square root of every non-negative real. Distances are compared
through their squares: `d < D` iff `0 < D` and `d*d < D*D`. The random draws
are unit samples in `[0, 1)` supplied by the caller, and `random(m)` is
`u * m`.

The model follows the code on two points where the code differs from what
one might expect of it:

- **Pairs are not always drawn twice on screen.** The screen loops move
  node i just before testing its pairs. So of the two nodes of a pair, the
  one later in array order has taken its step when the pair is tested from
  that node and not yet when it is tested from the earlier node; the
  earlier node has moved in both tests. A close pair is therefore not
  always drawn from both ends, and `Render.LiveFrameAsymmetric` exhibits two
  nodes for which it is not. The export moves nothing, and there every
  close pair is drawn from both ends with the same alpha
  (`Render.ExportBothEnds`).
- **The right half uses catalogue entry 3.** A comment in `draw` speaks of
  `palette[1]` for the right half, but the code uses entry 3, and so does
  `drawSplitCircuits`. The model uses entry 3.

## Model

| member | source | states |
|---|---|---|
| P5Math.Lerp | sketch.js:157-158 | `lerp(x, tx, s)` leaves the gap `tx - x'` equal to `(1 - s) * (tx - x)` |
| P5Math.RandomUpTo | sketch.js:143-146 | `random(m)` from a unit sample lies in `[0, m]`, and in `[0, m)` when `m > 0` |
| P5Math.RandomBetween | sketch.js:147 | `random(lo, hi)` from a unit sample lies between the two bounds, in either order |
| P5Math.DistSquared | sketch.js:163 | the square of `dist` is the sum of the squared coordinate gaps |
| P5Math.DistScales | sketch.js:254-267 | scaling both points by `k >= 0` scales their distance by `k` |
| P5Math.RemapWithin | sketch.js:165 | `map` from `[start1, stop1)` lands in the target range, for increasing and decreasing ranges |
| P5Math.RemapScaled | sketch.js:269 | `map(d*k, 0, D*k, a, b)` equals `map(d, 0, D, a, b)` for non-zero `k` and `D` |
| Palettes.CatalogWellFormed | sketch.js:21-29 | the catalogue constant `Palettes.Catalog` holds the seven palettes of the table, in order: seven entries with 8-bit channels; the split halves draw in black and white |
| Palettes.SidePaletteSpec | sketch.js:187-195 | a half's palette is catalogue entry 0 on the left and entry 3 on the right, and entry 0 is used iff the node is on the left |
| Nodes.CreateNode | sketch.js:141-149 | position and target inside the canvas; speed in `[0.001, speed / 1000]`, and within `(0, 1]` for speed settings 1 to 1000 |
| Nodes.Step | sketch.js:157-158 | one frame of motion: `x` and then `y` each take a `lerp` towards the target at the node's own speed; the target and the speed stay as they are |
| Nodes.MovedUpTo | sketch.js:155-158 | the field after the loop has moved its first `m` nodes, one after the other, in array order |
| Nodes.Advanced | sketch.js:155-158 | the field after every node has taken its step |
| Nodes.Retarget | sketch.js:237-241 | one node of `updateNodes`: a node closer than 5 to its target gets the target `(random(width), random(height))`, any other is left as it is |
| Nodes.Retargeted | sketch.js:235-243 | `updateNodes` over the whole field, node k with the k-th pair of draws |
| Nodes.FreshField | sketch.js:309-314 | `points` nodes, the k-th built by `createNode` from the k-th draws |
| Nodes.MovedUpToSpec | sketch.js:155-158 | after the loop has reached node m, nodes before m have taken exactly one step and the rest none |
| Nodes.StepApproaches | sketch.js:157-158 | a step keeps target and speed; for `0 < s <= 1` each axis gap becomes exactly `(1 - s)` times as large; the squared distance to the target never grows, and with `s < 1` a node short of its target never lands exactly on it |
| Nodes.ArrivedIffGapBelow25 | sketch.js:237-238 | the arrival test `dist < 5` holds iff the squared gap is below 25 |
| Nodes.RetargetSpec | sketch.js:236-241 | retargeting never changes position or speed; it leaves an unarrived node untouched and gives an arrived node a target inside the canvas |
| Render.Pair | sketch.js:161-279 | the commands one ordered-pair test (i, j) emits: nothing for `i == j` or a pair that is not close; in single mode the node's point and a fading line (sketch.js:162-180), in split mode one line in the half's colour or the cross grey (sketch.js:203-228), in the export one line between the scaled positions against the scaled distance (sketch.js:264-279) |
| Render.Header | sketch.js:197-200 | the point marker before a node's pairs: in split mode in its half's colour, in the export scaled (sketch.js:259-261), and none in single mode |
| Render.Row | sketch.js:161-183 | the pairs (i, 0), ..., (i, n - 1) of node i, in loop order |
| Render.Pass | sketch.js:155-183 | the outer loop: for each node in order, its marker and then its row, each tested in the field as it stands at that node's turn |
| Render.Frame | sketch.js:152-185 | everything one run of a connection loop draws over a field |
| Render.Screen | sketch.js:122-136 | what `draw` paints: in split mode the two half rectangles in the backgrounds of entries 0 and 3, then the split loop; otherwise the palette's background, then the single loop |
| Render.HighRes | sketch.js:245-282 | the export buffer: size `w` x `h`, the current palette's background, then the export loop at scale `w / width`, in the current palette whatever the mode |
| Render.FieldsSpec | sketch.js:155-161 | when node k's pairs are tested on screen, nodes 0 to k have moved once and the later ones not at all; the export sees the unmoved field |
| Render.FieldsStep | sketch.js:190-192 | stepping node k in the field left by nodes 0 .. k - 1 gives the field its pairs are tested in |
| Render.PairSelected | sketch.js:161-164 | in every mode the pair (i, j) draws something iff `i != j` and the nodes are closer than a positive distance; for the export this is the unscaled test |
| Render.SingleEdge | sketch.js:162-180 | single mode: a close pair draws the node's opaque point, then a line to the other node in the line colour at alpha `255 * (1 - d / distance)`, which lies in `(0, 255]` |
| Render.SplitEdge | sketch.js:203-227 | split mode: one line at the fading alpha; same-side pairs use the node's half colour; across the midline the unrounded grey `150 + 105 * d / distance` lies in `[150, 255)` and is neither half's colour |
| Render.ExportEdge | sketch.js:263-278 | export: a close pair draws one line between the scaled positions, at the scaled stroke width and with the alpha of the unscaled distance |
| Render.ExportBothEnds | sketch.js:263-278 | the export draws a close pair from both ends, with the same alpha, the segment reversed |
| Render.ExportMatchesSingle | sketch.js:263-278 | for a positive scale the export draws exactly the lines of the single view on the same positions, every coordinate and the stroke width scaled |
| Render.PairLinesFaded | sketch.js:164-165 | a pair draws only under a positive distance, and its lines have alpha in `(0, 255]` |
| Render.RowLinesFaded | sketch.js:161-181 | the same for all the pairs of one node |
| Render.PassLinesFaded | sketch.js:155-183 | across a whole pass every line has alpha in `(0, 255]` and needs a positive distance; in single mode a non-empty pass needs one too |
| Render.PairCounts | sketch.js:161-181 | a pair draws one line iff it is close, plus one point only in single mode |
| Render.HeaderCounts | sketch.js:197-200 | split mode and the export draw exactly one point and no line per node before its pairs; single mode draws none there |
| Render.RowCounts | sketch.js:164-175 | a node's pair loop draws one line per close neighbour; its point is drawn once per close neighbour in single mode and never in the other modes |
| Render.RowEmpty | sketch.js:164-175 | a node's pair loop draws nothing iff no other node is close to it |
| Render.NothingWithoutDistance | sketch.js:164 | with a distance of zero or less, no pass draws a line, and the single view draws nothing at all |
| Render.FrameSummary | sketch.js:152-185 | a whole frame in any mode: every line's alpha lies in `(0, 255]`; without a positive distance there are no lines, and nothing at all in single mode |
| Render.TwoRestingNodes | sketch.js:152-185 | two resting nodes 10 apart: with distance 20 the single view draws point and line from both ends at alpha 127.5; with distance 5 it draws nothing |
| Render.ExportOfTwo | sketch.js:253-282 | the export of a two-node field draws both points and the pair from both ends at alpha 85 |
| Render.LiveFrameAsymmetric | sketch.js:155-181 | in the single view a close pair can be drawn from one end only, because the other node moves between the two tests; the export of the same field draws four commands |
| Keys.OnKey | sketch.js:293-307 | the key handler's three tests in order: a digit 1 to 7 selects a palette, S or s requests the 2481 x 3507 export, M or m toggles split mode |
| Keys.DigitSelectsPalette | sketch.js:295-297 | keys 1 to 7 select catalogue entry digit - 1, always a valid index, and change nothing else |
| Keys.SplitKeyToggles | sketch.js:304-306 | M or m flips split mode and nothing else; two presses restore the state |
| Keys.ExportKeyRequests | sketch.js:300-303 | S or s requests an export of exactly 2481 x 3507 and leaves palette and mode alone |
| Keys.OtherKeyIgnored | sketch.js:293-307 | any other key changes nothing and requests nothing |
| Keys.PaletteStaysValid | sketch.js:293-307 | a valid palette index stays valid whatever the key |
| CircuitSketch.Sketch.constructor | sketch.js:7-17 | no nodes, palette 0, split mode off |
| CircuitSketch.Sketch.ReinitializeNodes | sketch.js:309-314 | the field becomes exactly `points` fresh nodes made by `createNode`, the k-th from the k-th draws; no old node survives |
| CircuitSketch.Sketch.DrawCircuits | sketch.js:152-185 | every node takes one step, in array order, and the commands are the single-view frame, each node tested in the field as it stands after its own step |
| CircuitSketch.Sketch.ConnectSingle | sketch.js:161-183 | the inner loop of `drawCircuits` emits node i's pairs (i, 0) to (i, n - 1) in order |
| CircuitSketch.Sketch.DrawSplitCircuits | sketch.js:186-232 | every node takes one step; each draws its point in its half's colour, then its pairs, as the split frame specifies |
| CircuitSketch.Sketch.ConnectSplit | sketch.js:202-230 | the inner loop of `drawSplitCircuits` emits node i's pairs in order |
| CircuitSketch.Sketch.UpdateNodes | sketch.js:235-243 | each node is retargeted by its own draws; see `Nodes.RetargetSpec` |
| CircuitSketch.Sketch.SaveHighRes | sketch.js:245-283 | a `w` x `h` surface: the current palette's background, then the export frame at scale `w / width`; no node is changed |
| CircuitSketch.Sketch.ConnectExport | sketch.js:263-281 | the inner loop of `saveHighRes` emits node i's scaled pairs in order |
| CircuitSketch.Sketch.KeyPressed | sketch.js:293-307 | the new palette and mode are those of `Keys.OnKey`; S or s returns the 2481 x 3507 export of the current field |
| CircuitSketch.Sketch.Draw | sketch.js:107-138 | one frame: split mode paints the halves in entries 0 and 3, otherwise the palette's background; then the mode's loop runs, then the arrived nodes are retargeted in the moved field |

## Left out

- The UI panel, its labels and the Apply and Restart buttons (sketch.js:35-102, 116-120) are DOM glue. This includes the `int()` parsing of the resolution text. The slider values read each frame arrive as a `Config`.
- `createCanvas`, `noFill` and `strokeCap` in `setup`, and `strokeCap` on the buffer, do not affect the logic.
- There are no pixels. Each canvas call becomes a command that carries the stroke colour and weight in force when it is made. `noStroke` and `fill` are folded into `Rect`.
- PNG encoding, the download link and `console.log` (sketch.js:285-290, 301) are browser I/O.
- The frame scheduler is not modelled: `Draw` is one call of `draw`.
- IEEE floating point is not modelled; numbers are `real`. `Math.sqrt` is an oracle.
- Colour construction is not modelled: p5's 8-bit quantisation and clamping of colour channels and alpha.
- `random` is not modelled; the draws are samples supplied by the caller. `updateNodes` is given one pair of samples per node. The source draws only for the arrived nodes, and the model uses only those nodes' samples.
- `key` is modelled as a single character. The multi-character key names p5 reports, such as "Shift", match none of the handler's tests.
- `node !== other` is modelled as index inequality. That is the same test, because every array element is a distinct object.
- The scaled target coordinates computed in `saveHighRes` (sketch.js:256-257) are never used, and are left out.
- The inner pair loops are written as their own methods (`ConnectSingle`, `ConnectSplit`, `ConnectExport`). They keep the same order of calls.
- CircuitSketch.Sketch.SaveHighRes: requires a non-zero canvas width. With width 0 the source's scale factor `w / width` is `Infinity` (and its products with a zero coordinate are `NaN`); `real` has no such values.
- CircuitSketch.Sketch.KeyPressed: requires a non-zero canvas width when the key is S or s, because that key runs `SaveHighRes`; the export of a zero-width canvas is not modelled, for the same reason.
- Render.SplitEdge: the cross grey is shown distinct from both halves' line colours only before p5 rounds colour channels to 8 bits. After rounding, a grey of 254.5 or more becomes 255, the white of the right half (entry 3), so a cross pair longer than about 0.995 times the distance draws in the same colour and alpha as a right-half line.
- Render.PassLinesFaded: a whole frame is described by which commands it contains, and is not counted. Point and line counts are stated per node (`Render.HeaderCounts`, `Render.RowCounts`), not summed over a frame.
