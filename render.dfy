/** What one pass of the sketch's connection renderer draws, as a sequence of
    drawing commands. The three loops of sketch.js (`drawCircuits`,
    `drawSplitCircuits` and the body of `saveHighRes`) share one shape: for
    each node in array order, an optional point marker, then one test per
    ordered pair (node, other). They differ in the colours, in the scale and
    in whether the node takes its motion step before its pairs are tested. */
module Render {
  import opened P5Math
  import opened Palettes
  import opened Nodes

  /** A stroke colour with an alpha channel. */
  datatype Rgba = Rgba(r: real, g: real, b: real, a: real)

  /** p5 `color(red(c), green(c), blue(c), alpha)`. */
  function WithAlpha(c: Rgb, alpha: real): Rgba {
    Rgba(c.r as real, c.g as real, c.b as real, alpha)
  }

  /** `stroke(c)` for an opaque palette colour. */
  function Opaque(c: Rgb): Rgba {
    WithAlpha(c, 255.0)
  }

  /** p5 `color(level, alpha)`: a grey with an alpha channel. */
  function GreyAlpha(level: real, alpha: real): Rgba {
    Rgba(level, level, level, alpha)
  }

  /** The drawing calls the renderer makes, with the stroke colour and stroke
      weight in force when each is made. */
  datatype Cmd =
    | Background(fill: Rgb)
    | Rect(x: real, y: real, w: real, h: real, fill: Rgb)
    | Point(x: real, y: real, stroke: Rgba, weight: real)
    | Line(x: real, y: real, x2: real, y2: real, stroke: Rgba, weight: real)

  /** The three variants of the loop: the single-palette screen view, the
      split screen view, and the export at a scale factor. */
  datatype Style =
    | Single(palette: Palette)
    | Split
    | Export(palette: Palette, scale: real)

  /** `map(d, 0, limit, 255, 0)`: the alpha of a line of length `d`. */
  function Alpha(d: real, limit: real): real
    requires limit != 0.0
  {
    Remap(d, 0.0, limit, 255.0, 0.0)
  }

  /** `map(d, 0, limit, 150, 255)`: the grey of a line across the midline. */
  function CrossGrey(d: real, limit: real): real
    requires limit != 0.0
  {
    Remap(d, 0.0, limit, 150.0, 255.0)
  }

  /** A node is on the left half iff its x is left of the midline. */
  predicate IsLeft(cfg: Config, n: Node) {
    n.x < cfg.width / 2.0
  }

  /** The commands the test of the ordered pair (i, j) emits. */
  function Pair(style: Style, cfg: Config, sqrt: real -> real, s: seq<Node>, i: nat, j: nat): seq<Cmd>
    requires IsSqrt(sqrt) && i < |s| && j < |s|
  {
    if i == j then []
    else
      match style
      case Single(pal) =>
        var d := Dist(sqrt, s[i].x, s[i].y, s[j].x, s[j].y);
        if d < cfg.distance then
          [Point(s[i].x, s[i].y, Opaque(pal.line), cfg.nodeWidth),
           Line(s[i].x, s[i].y, s[j].x, s[j].y, WithAlpha(pal.line, Alpha(d, cfg.distance)), cfg.strokeWidth)]
        else []
      case Split =>
        var isLeft := IsLeft(cfg, s[i]);
        var otherIsLeft := IsLeft(cfg, s[j]);
        var d := Dist(sqrt, s[i].x, s[i].y, s[j].x, s[j].y);
        if d < cfg.distance then
          var alpha := Alpha(d, cfg.distance);
          var colour :=
            if isLeft != otherIsLeft then GreyAlpha(CrossGrey(d, cfg.distance), alpha)
            else WithAlpha(SidePalette(isLeft).line, alpha);
          [Line(s[i].x, s[i].y, s[j].x, s[j].y, colour, cfg.strokeWidth)]
        else []
      case Export(pal, k) =>
        var x, y := Mul(s[i].x, k), Mul(s[i].y, k);
        var ox, oy := Mul(s[j].x, k), Mul(s[j].y, k);
        var d := Dist(sqrt, x, y, ox, oy);
        if d < Mul(cfg.distance, k) then
          [Line(x, y, ox, oy, WithAlpha(pal.line, Alpha(d, Mul(cfg.distance, k))), Mul(cfg.strokeWidth, k))]
        else []
  }

  /** The point marker drawn for node i before its pairs are tested. */
  function Header(style: Style, cfg: Config, s: seq<Node>, i: nat): seq<Cmd>
    requires i < |s|
  {
    match style
    case Single(_) => []
    case Split => [Point(s[i].x, s[i].y, Opaque(SidePalette(IsLeft(cfg, s[i])).line), cfg.nodeWidth)]
    case Export(pal, k) => [Point(Mul(s[i].x, k), Mul(s[i].y, k), Opaque(pal.line), Mul(cfg.nodeWidth, k))]
  }

  /** The pairs (i, 0), ..., (i, m - 1), in that order. */
  function Row(style: Style, cfg: Config, sqrt: real -> real, s: seq<Node>, i: nat, m: nat): seq<Cmd>
    requires IsSqrt(sqrt) && i < |s| && m <= |s|
  {
    if m == 0 then [] else Row(style, cfg, sqrt, s, i, m - 1) + Pair(style, cfg, sqrt, s, i, m - 1)
  }

  /** The field as it stands while node m - 1's pairs are tested: on screen,
      nodes 0 .. m - 1 have taken this frame's step and the rest have not;
      the export moves nothing. */
  function Positions(style: Style, ns: seq<Node>, m: nat): (s: seq<Node>)
    requires m <= |ns|
    ensures |s| == |ns|
  {
    if style.Export? then ns else MovedUpTo(ns, m)
  }

  /** A sequence of fields, one per node, each as long as the sequence. */
  predicate Square(ss: seq<seq<Node>>) {
    forall k :: 0 <= k < |ss| ==> |ss[k]| == |ss|
  }

  /** Entry k is the field as node k's pairs are tested. */
  function Fields(style: Style, ns: seq<Node>): (ss: seq<seq<Node>>)
    ensures |ss| == |ns| && Square(ss)
  {
    FieldsUpTo(style, ns, |ns|)
  }

  /** The first m entries of `Fields`. */
  function FieldsUpTo(style: Style, ns: seq<Node>, m: nat): (ss: seq<seq<Node>>)
    requires m <= |ns|
    ensures |ss| == m && forall k :: 0 <= k < m ==> |ss[k]| == |ns|
  {
    if m == 0 then [] else FieldsUpTo(style, ns, m - 1) + [Positions(style, ns, m)]
  }

  lemma {:induction false} FieldsUpToAt(style: Style, ns: seq<Node>, m: nat, k: nat)
    requires k < m <= |ns|
    ensures FieldsUpTo(style, ns, m)[k] == Positions(style, ns, k + 1)
  {
    if k < m - 1 {
      FieldsUpToAt(style, ns, m - 1, k);
    }
  }

  /** Node k is tested against the field after this frame's first k + 1
      steps (on screen) or against the unmoved field (export). */
  lemma FieldsAt(style: Style, ns: seq<Node>, k: nat)
    requires k < |ns|
    ensures Fields(style, ns)[k] == Positions(style, ns, k + 1)
  {
    FieldsUpToAt(style, ns, |ns|, k);
  }

  /** What the loop emits for nodes 0 .. m - 1 when node k is tested against
      the field `ss[k]`: node k's marker, then its pairs (k, 0), ..., (k, n - 1). */
  function Pass(style: Style, cfg: Config, sqrt: real -> real, ss: seq<seq<Node>>, m: nat): seq<Cmd>
    requires IsSqrt(sqrt) && Square(ss) && m <= |ss|
  {
    if m == 0 then []
    else Pass(style, cfg, sqrt, ss, m - 1) + Header(style, cfg, ss[m - 1], m - 1) + Row(style, cfg, sqrt, ss[m - 1], m - 1, |ss|)
  }

  /** Everything one run of the loop emits over the field `ns` as it stood
      when the loop began. */
  function Frame(style: Style, cfg: Config, sqrt: real -> real, ns: seq<Node>): seq<Cmd>
    requires IsSqrt(sqrt)
  {
    Pass(style, cfg, sqrt, Fields(style, ns), |ns|)
  }

  /** When node k's pairs are tested on screen, node k and the nodes before
      it have taken exactly one step this frame and the nodes after it none;
      the export sees the field unmoved. */
  lemma FieldsSpec(style: Style, ns: seq<Node>, k: nat, j: nat)
    requires k < |ns| && j < |ns|
    ensures Fields(style, ns)[k][j] == if !style.Export? && j <= k then Step(ns[j]) else ns[j]
  {
    FieldsAt(style, ns, k);
    MovedUpToSpec(ns, k + 1);
  }

  /** On screen, node k takes its step just before its pairs are tested:
      stepping it in the field left by nodes 0 .. k - 1 gives `Fields`' entry k. */
  lemma FieldsStep(style: Style, ns: seq<Node>, k: nat)
    requires k < |ns| && !style.Export?
    ensures MovedUpTo(ns, k)[k := Step(MovedUpTo(ns, k)[k])] == MovedUpTo(ns, k + 1) == Fields(style, ns)[k]
  {
    FieldsAt(style, ns, k);
    MovedUpToSpec(ns, k);
  }

  /** The two half-canvas rectangles split mode paints first. */
  function SplitBackground(cfg: Config): seq<Cmd> {
    [Rect(0.0, 0.0, cfg.width / 2.0, cfg.height, Catalog[LeftIndex].bg),
     Rect(cfg.width / 2.0, 0.0, cfg.width / 2.0, cfg.height, Catalog[RightIndex].bg)]
  }

  /** What `draw` paints on the screen: the background, then the loop of the
      current mode. */
  function Screen(cfg: Config, sqrt: real -> real, ns: seq<Node>, palette: nat, split: bool): seq<Cmd>
    requires IsSqrt(sqrt) && palette < |Catalog|
  {
    if split then SplitBackground(cfg) + Frame(Split, cfg, sqrt, ns)
    else [Background(Catalog[palette].bg)] + Frame(Single(Catalog[palette]), cfg, sqrt, ns)
  }

  /** An offscreen graphics buffer of the given size and what was drawn on it. */
  datatype Surface = Surface(width: int, height: int, cmds: seq<Cmd>)

  /** What `saveHighRes(w, h)` draws: the current palette (whatever the
      mode), scaled by `w / width`. */
  function HighRes(cfg: Config, sqrt: real -> real, ns: seq<Node>, palette: nat, w: int, h: int): Surface
    requires IsSqrt(sqrt) && palette < |Catalog| && cfg.width != 0.0
  {
    var pal := Catalog[palette];
    Surface(w, h, [Background(pal.bg)] + Frame(Export(pal, (w as real) / cfg.width), cfg, sqrt, ns))
  }

  // ---------------------------------------------------------------------
  // Properties

  /** Two nodes are close when their distance is below a positive
      connection distance, compared through squares. */
  predicate Close(cfg: Config, a: Node, b: Node) {
    0.0 < cfg.distance && Dist2(a.x, a.y, b.x, b.y) < Sq(cfg.distance)
  }

  /** The fading alpha `255 * (1 - d / distance)` of a line of length `d`. */
  function Fade(cfg: Config, d: real): real
    requires cfg.distance != 0.0
  {
    255.0 * (1.0 - d / cfg.distance)
  }

  /** In every mode, the pair (i, j) emits something iff i and j are different
      nodes and are close; for the export this is the unscaled test, whatever
      the positive scale factor. */
  lemma PairSelected(style: Style, cfg: Config, sqrt: real -> real, s: seq<Node>, i: nat, j: nat)
    requires IsSqrt(sqrt) && i < |s| && j < |s|
    requires style.Export? ==> 0.0 < style.scale
    ensures Pair(style, cfg, sqrt, s, i, j) != [] <==> i != j && Close(cfg, s[i], s[j])
  {
    if i != j {
      var d := Dist(sqrt, s[i].x, s[i].y, s[j].x, s[j].y);
      DistSquared(sqrt, s[i].x, s[i].y, s[j].x, s[j].y);
      BelowIffSquareBelow(d, Dist2(s[i].x, s[i].y, s[j].x, s[j].y), cfg.distance);
      if style.Export? {
        var k := style.scale;
        DistScales(sqrt, k, s[i].x, s[i].y, s[j].x, s[j].y);
        ScaledLess(d, cfg.distance, k);
      }
    }
  }

  /** Single mode: a close pair emits the node's opaque point marker and then
      a line to the other node in the palette's line colour, with alpha
      `255 * (1 - d / distance)`, which lies in (0, 255]. */
  lemma SingleEdge(pal: Palette, cfg: Config, sqrt: real -> real, s: seq<Node>, i: nat, j: nat)
    requires IsSqrt(sqrt) && i < |s| && j < |s| && i != j && Close(cfg, s[i], s[j])
    ensures var d := Dist(sqrt, s[i].x, s[i].y, s[j].x, s[j].y);
      Pair(Single(pal), cfg, sqrt, s, i, j) ==
        [Point(s[i].x, s[i].y, Opaque(pal.line), cfg.nodeWidth),
         Line(s[i].x, s[i].y, s[j].x, s[j].y, WithAlpha(pal.line, Fade(cfg, d)), cfg.strokeWidth)]
      && 0.0 < Fade(cfg, d) <= 255.0
  {
    var d := Dist(sqrt, s[i].x, s[i].y, s[j].x, s[j].y);
    PairSelected(Single(pal), cfg, sqrt, s, i, j);
    DistSquared(sqrt, s[i].x, s[i].y, s[j].x, s[j].y);
    BelowIffSquareBelow(d, Dist2(s[i].x, s[i].y, s[j].x, s[j].y), cfg.distance);
    RemapFade(d, cfg.distance);
    RemapWithin(d, 0.0, cfg.distance, 255.0, 0.0);
  }

  /** Split mode: a close pair on one side of the midline is drawn in that
      side's line colour; a pair across it in the grey `150 + 105 * d /
      distance`, which lies in [150, 255) and so is neither of the two side
      colours (black and white). Either way the alpha is the fading one. */
  lemma SplitEdge(cfg: Config, sqrt: real -> real, s: seq<Node>, i: nat, j: nat)
    requires IsSqrt(sqrt) && i < |s| && j < |s| && i != j && Close(cfg, s[i], s[j])
    ensures var d := Dist(sqrt, s[i].x, s[i].y, s[j].x, s[j].y);
      var cmds := Pair(Split, cfg, sqrt, s, i, j);
      |cmds| == 1 && cmds[0].Line? &&
      cmds[0].x == s[i].x && cmds[0].y == s[i].y && cmds[0].x2 == s[j].x && cmds[0].y2 == s[j].y &&
      cmds[0].weight == cfg.strokeWidth &&
      cmds[0].stroke.a == Fade(cfg, d) && 0.0 < Fade(cfg, d) <= 255.0 &&
      (IsLeft(cfg, s[i]) == IsLeft(cfg, s[j]) ==>
         cmds[0].stroke == WithAlpha(SidePalette(IsLeft(cfg, s[i])).line, Fade(cfg, d))) &&
      (IsLeft(cfg, s[i]) != IsLeft(cfg, s[j]) ==>
         var g := 150.0 + 105.0 * (d / cfg.distance);
         cmds[0].stroke == GreyAlpha(g, Fade(cfg, d)) && 150.0 <= g < 255.0 &&
         forall side: bool :: cmds[0].stroke != WithAlpha(SidePalette(side).line, Fade(cfg, d)))
  {
    var d := Dist(sqrt, s[i].x, s[i].y, s[j].x, s[j].y);
    PairSelected(Split, cfg, sqrt, s, i, j);
    DistSquared(sqrt, s[i].x, s[i].y, s[j].x, s[j].y);
    BelowIffSquareBelow(d, Dist2(s[i].x, s[i].y, s[j].x, s[j].y), cfg.distance);
    RemapFade(d, cfg.distance);
    RemapWithin(d, 0.0, cfg.distance, 255.0, 0.0);
    RemapWithin(d, 0.0, cfg.distance, 150.0, 255.0);
  }

  /** Export at a positive scale factor k: a pair is drawn iff the unscaled
      nodes are close, between the scaled positions, with the stroke width
      scaled by k and with exactly the alpha of the unscaled distance. */
  lemma ExportEdge(pal: Palette, k: real, cfg: Config, sqrt: real -> real, s: seq<Node>, i: nat, j: nat)
    requires IsSqrt(sqrt) && 0.0 < k && i < |s| && j < |s| && i != j && Close(cfg, s[i], s[j])
    ensures var d := Dist(sqrt, s[i].x, s[i].y, s[j].x, s[j].y);
      Pair(Export(pal, k), cfg, sqrt, s, i, j) ==
        [Line(Mul(s[i].x, k), Mul(s[i].y, k), Mul(s[j].x, k), Mul(s[j].y, k), WithAlpha(pal.line, Fade(cfg, d)), Mul(cfg.strokeWidth, k))]
      && 0.0 < Fade(cfg, d) <= 255.0
  {
    var d := Dist(sqrt, s[i].x, s[i].y, s[j].x, s[j].y);
    PairSelected(Export(pal, k), cfg, sqrt, s, i, j);
    DistSquared(sqrt, s[i].x, s[i].y, s[j].x, s[j].y);
    BelowIffSquareBelow(d, Dist2(s[i].x, s[i].y, s[j].x, s[j].y), cfg.distance);
    DistScales(sqrt, k, s[i].x, s[i].y, s[j].x, s[j].y);
    RemapScaled(d, cfg.distance, k, 255.0, 0.0);
    RemapFade(d, cfg.distance);
    RemapWithin(d, 0.0, cfg.distance, 255.0, 0.0);
  }

  /** The export tests a close pair from both of its ends, with the same
      alpha and the same segment traversed in opposite directions. */
  lemma ExportBothEnds(pal: Palette, k: real, cfg: Config, sqrt: real -> real, s: seq<Node>, i: nat, j: nat)
    requires IsSqrt(sqrt) && 0.0 < k && i < |s| && j < |s|
    ensures Pair(Export(pal, k), cfg, sqrt, s, i, j) != [] <==> Pair(Export(pal, k), cfg, sqrt, s, j, i) != []
    ensures i != j && Close(cfg, s[i], s[j]) ==>
      var c := WithAlpha(pal.line, Fade(cfg, Dist(sqrt, s[i].x, s[i].y, s[j].x, s[j].y)));
      Pair(Export(pal, k), cfg, sqrt, s, i, j) == [Line(Mul(s[i].x, k), Mul(s[i].y, k), Mul(s[j].x, k), Mul(s[j].y, k), c, Mul(cfg.strokeWidth, k))] &&
      Pair(Export(pal, k), cfg, sqrt, s, j, i) == [Line(Mul(s[j].x, k), Mul(s[j].y, k), Mul(s[i].x, k), Mul(s[i].y, k), c, Mul(cfg.strokeWidth, k))]
  {
    PairSelected(Export(pal, k), cfg, sqrt, s, i, j);
    PairSelected(Export(pal, k), cfg, sqrt, s, j, i);
    assert Dist2(s[i].x, s[i].y, s[j].x, s[j].y) == Dist2(s[j].x, s[j].y, s[i].x, s[i].y);
    if i != j && Close(cfg, s[i], s[j]) {
      ExportEdge(pal, k, cfg, sqrt, s, i, j);
      ExportEdge(pal, k, cfg, sqrt, s, j, i);
      DistSymmetric(sqrt, s[i].x, s[i].y, s[j].x, s[j].y);
    }
  }

  /** For a positive scale factor the export draws exactly the lines the
      single view would draw for the same (unmoved) positions, with every
      coordinate and the stroke width scaled: same selection, same alpha. */
  lemma ExportMatchesSingle(pal: Palette, k: real, cfg: Config, sqrt: real -> real, s: seq<Node>, i: nat, j: nat)
    requires IsSqrt(sqrt) && 0.0 < k && i < |s| && j < |s|
    ensures var single := Pair(Single(pal), cfg, sqrt, s, i, j);
      Pair(Export(pal, k), cfg, sqrt, s, i, j) ==
        if single == [] then [] else [ScaledLine(single[1], k)]
  {
    PairSelected(Single(pal), cfg, sqrt, s, i, j);
    PairSelected(Export(pal, k), cfg, sqrt, s, i, j);
    if i != j && Close(cfg, s[i], s[j]) {
      SingleEdge(pal, cfg, sqrt, s, i, j);
      ExportEdge(pal, k, cfg, sqrt, s, i, j);
    }
  }

  /** A command with its coordinates and stroke weight multiplied by `k`. */
  function ScaledLine(c: Cmd, k: real): Cmd {
    match c
    case Line(x, y, x2, y2, stroke, weight) => Line(Mul(x, k), Mul(y, k), Mul(x2, k), Mul(y2, k), stroke, Mul(weight, k))
    case _ => c
  }

  /** A pair test emits something only under a positive connection
      distance, and every line it emits has an alpha in (0, 255]. */
  lemma PairLinesFaded(style: Style, cfg: Config, sqrt: real -> real, s: seq<Node>, i: nat, j: nat)
    requires IsSqrt(sqrt) && i < |s| && j < |s|
    requires style.Export? ==> 0.0 < style.scale
    ensures forall c :: c in Pair(style, cfg, sqrt, s, i, j) ==> 0.0 < cfg.distance && (c.Line? ==> 0.0 < c.stroke.a <= 255.0)
  {
    PairSelected(style, cfg, sqrt, s, i, j);
    if i != j && Close(cfg, s[i], s[j]) {
      match style
      case Single(pal) => SingleEdge(pal, cfg, sqrt, s, i, j);
      case Split => SplitEdge(cfg, sqrt, s, i, j);
      case Export(pal, k) => ExportEdge(pal, k, cfg, sqrt, s, i, j);
    }
  }

  /** Every line of a whole pass has an alpha in (0, 255] and needs a
      positive connection distance; in single mode, where points are drawn
      only with lines, so does every command. */
  lemma {:induction false} PassLinesFaded(style: Style, cfg: Config, sqrt: real -> real, ss: seq<seq<Node>>, m: nat)
    requires IsSqrt(sqrt) && Square(ss) && m <= |ss|
    requires style.Export? ==> 0.0 < style.scale
    ensures forall c :: c in Pass(style, cfg, sqrt, ss, m) && c.Line? ==> 0.0 < cfg.distance && 0.0 < c.stroke.a <= 255.0
    ensures style.Single? ==> forall c :: c in Pass(style, cfg, sqrt, ss, m) ==> 0.0 < cfg.distance
    // The emptiness form of the previous clause: it names a witness command,
    // which callers reasoning about an empty pass would otherwise have to find.
    ensures style.Single? && |Pass(style, cfg, sqrt, ss, m)| > 0 ==> 0.0 < cfg.distance
  {
    if m > 0 {
      PassLinesFaded(style, cfg, sqrt, ss, m - 1);
      RowLinesFaded(style, cfg, sqrt, ss[m - 1], m - 1, |ss|);
      var cmds := Pass(style, cfg, sqrt, ss, m);
      if style.Single? && |cmds| > 0 {
        assert cmds[0] in cmds;
      }
    }
  }

  lemma {:induction false} RowLinesFaded(style: Style, cfg: Config, sqrt: real -> real, s: seq<Node>, i: nat, m: nat)
    requires IsSqrt(sqrt) && i < |s| && m <= |s|
    requires style.Export? ==> 0.0 < style.scale
    ensures forall c :: c in Row(style, cfg, sqrt, s, i, m) ==> 0.0 < cfg.distance && (c.Line? ==> 0.0 < c.stroke.a <= 255.0)
  {
    if m > 0 {
      RowLinesFaded(style, cfg, sqrt, s, i, m - 1);
      PairLinesFaded(style, cfg, sqrt, s, i, m - 1);
    }
  }

  // ---------------------------------------------------------------------
  // Counting points and lines

  function PointCount(cmds: seq<Cmd>): nat {
    if |cmds| == 0 then 0 else (if cmds[0].Point? then 1 else 0) + PointCount(cmds[1..])
  }

  function LineCount(cmds: seq<Cmd>): nat {
    if |cmds| == 0 then 0 else (if cmds[0].Line? then 1 else 0) + LineCount(cmds[1..])
  }

  lemma {:induction false} CountsAppend(a: seq<Cmd>, b: seq<Cmd>)
    ensures PointCount(a + b) == PointCount(a) + PointCount(b)
    ensures LineCount(a + b) == LineCount(a) + LineCount(b)
  {
    if |a| == 0 {
      assert a + b == b;
    } else {
      assert (a + b)[0] == a[0];
      assert (a + b)[1..] == a[1..] + b;
      CountsAppend(a[1..], b);
    }
  }

  lemma CountsOfOne(c: Cmd)
    ensures PointCount([c]) == if c.Point? then 1 else 0
    ensures LineCount([c]) == if c.Line? then 1 else 0
  {
    assert [c][1..] == [];
  }

  lemma CountsOfTwo(c: Cmd, e: Cmd)
    ensures PointCount([c, e]) == PointCount([c]) + PointCount([e])
    ensures LineCount([c, e]) == LineCount([c]) + LineCount([e])
  {
    assert [c, e] == [c] + [e];
    CountsAppend([c], [e]);
  }

  /** The number of nodes among 0 .. m - 1, other than node i, close to node i. */
  function CloseCount(cfg: Config, s: seq<Node>, i: nat, m: nat): nat
    requires i < |s| && m <= |s|
  {
    if m == 0 then 0
    else CloseCount(cfg, s, i, m - 1) + (if m - 1 != i && Close(cfg, s[i], s[m - 1]) then 1 else 0)
  }

  /** A pair test emits one line iff the pair is close, and a point with it
      only in single mode. */
  lemma PairCounts(style: Style, cfg: Config, sqrt: real -> real, s: seq<Node>, i: nat, j: nat)
    requires IsSqrt(sqrt) && i < |s| && j < |s|
    requires style.Export? ==> 0.0 < style.scale
    ensures LineCount(Pair(style, cfg, sqrt, s, i, j)) == if i != j && Close(cfg, s[i], s[j]) then 1 else 0
    ensures PointCount(Pair(style, cfg, sqrt, s, i, j)) == if style.Single? && i != j && Close(cfg, s[i], s[j]) then 1 else 0
  {
    PairSelected(style, cfg, sqrt, s, i, j);
    if i != j && Close(cfg, s[i], s[j]) {
      var cmds := Pair(style, cfg, sqrt, s, i, j);
      match style
      case Single(pal) =>
        SingleEdge(pal, cfg, sqrt, s, i, j);
        CountsOfTwo(cmds[0], cmds[1]);
        CountsOfOne(cmds[0]);
        CountsOfOne(cmds[1]);
      case Split =>
        SplitEdge(cfg, sqrt, s, i, j);
        CountsOfOne(cmds[0]);
      case Export(pal, k) =>
        ExportEdge(pal, k, cfg, sqrt, s, i, j);
        CountsOfOne(cmds[0]);
    }
  }

  /** The point marker: one point in split mode and the export, none in
      single mode. */
  lemma HeaderCounts(style: Style, cfg: Config, s: seq<Node>, i: nat)
    requires i < |s|
    ensures PointCount(Header(style, cfg, s, i)) == if style.Single? then 0 else 1
    ensures LineCount(Header(style, cfg, s, i)) == 0
  {
    if !style.Single? {
      CountsOfOne(Header(style, cfg, s, i)[0]);
    }
  }

  /** A node's pair loop draws one line per close neighbour; in single mode it
      draws the node's point once per close neighbour as well, and in the
      other modes none. A node with no close neighbour draws nothing there. */
  lemma {:induction false} RowCounts(style: Style, cfg: Config, sqrt: real -> real, s: seq<Node>, i: nat, m: nat)
    requires IsSqrt(sqrt) && i < |s| && m <= |s|
    requires style.Export? ==> 0.0 < style.scale
    ensures LineCount(Row(style, cfg, sqrt, s, i, m)) == CloseCount(cfg, s, i, m)
    ensures PointCount(Row(style, cfg, sqrt, s, i, m)) == if style.Single? then CloseCount(cfg, s, i, m) else 0
  {
    if m > 0 {
      RowCounts(style, cfg, sqrt, s, i, m - 1);
      PairCounts(style, cfg, sqrt, s, i, m - 1);
      CountsAppend(Row(style, cfg, sqrt, s, i, m - 1), Pair(style, cfg, sqrt, s, i, m - 1));
      PairSelected(style, cfg, sqrt, s, i, m - 1);
    }
  }

  /** A node's pair loop draws nothing iff no other node is close to it. */
  lemma {:induction false} RowEmpty(style: Style, cfg: Config, sqrt: real -> real, s: seq<Node>, i: nat, m: nat)
    requires IsSqrt(sqrt) && i < |s| && m <= |s|
    requires style.Export? ==> 0.0 < style.scale
    ensures |Row(style, cfg, sqrt, s, i, m)| == 0 <==> CloseCount(cfg, s, i, m) == 0
  {
    if m > 0 {
      RowEmpty(style, cfg, sqrt, s, i, m - 1);
      PairSelected(style, cfg, sqrt, s, i, m - 1);
      var r, p := Row(style, cfg, sqrt, s, i, m - 1), Pair(style, cfg, sqrt, s, i, m - 1);
      assert |r + p| == |r| + |p|;
    }
  }

  /** With a connection distance of zero or less nothing is close: no pass
      draws a line, and the single view draws nothing at all. */
  lemma NothingWithoutDistance(style: Style, cfg: Config, sqrt: real -> real, ss: seq<seq<Node>>, m: nat)
    requires IsSqrt(sqrt) && Square(ss) && m <= |ss| && cfg.distance <= 0.0
    requires style.Export? ==> 0.0 < style.scale
    ensures forall c :: c in Pass(style, cfg, sqrt, ss, m) ==> !c.Line?
    ensures style.Single? ==> |Pass(style, cfg, sqrt, ss, m)| == 0
  {
    PassLinesFaded(style, cfg, sqrt, ss, m);
  }

  /** A whole screen or export pass: every line's alpha lies in (0, 255],
      and without a positive connection distance no line is drawn at all and
      the single view draws nothing. */
  lemma FrameSummary(style: Style, cfg: Config, sqrt: real -> real, ns: seq<Node>)
    requires IsSqrt(sqrt)
    requires style.Export? ==> 0.0 < style.scale
    ensures var cmds := Frame(style, cfg, sqrt, ns);
      (forall c :: c in cmds && c.Line? ==> 0.0 < c.stroke.a <= 255.0) &&
      (cfg.distance <= 0.0 ==> (forall c :: c in cmds ==> !c.Line?) && (style.Single? ==> |cmds| == 0))
  {
    var ss := Fields(style, ns);
    PassLinesFaded(style, cfg, sqrt, ss, |ns|);
    if cfg.distance <= 0.0 {
      NothingWithoutDistance(style, cfg, sqrt, ss, |ns|);
    }
  }

  // ---------------------------------------------------------------------
  // Concrete passes

  lemma SqrtOf(sqrt: real -> real, q: real, r: real)
    requires IsSqrt(sqrt) && 0.0 <= r && Sq(r) == q
    ensures sqrt(q) == r
  {
    SquareInjective(sqrt(q), r);
  }

  /** The row of node i in a field of two nodes is the test of its pair
      with the other node. */
  lemma RowOfTwo(style: Style, cfg: Config, sqrt: real -> real, s: seq<Node>, i: nat)
    requires IsSqrt(sqrt) && |s| == 2 && i < 2
    ensures Row(style, cfg, sqrt, s, i, 2) == Pair(style, cfg, sqrt, s, i, 1 - i)
  {
    assert Row(style, cfg, sqrt, s, i, 1) == Pair(style, cfg, sqrt, s, i, 0);
  }

  /** A pass over two fields of two nodes is the two rows. */
  lemma PassOfTwo(style: Style, cfg: Config, sqrt: real -> real, ss: seq<seq<Node>>)
    requires IsSqrt(sqrt) && Square(ss) && |ss| == 2
    ensures Pass(style, cfg, sqrt, ss, 2) ==
      Header(style, cfg, ss[0], 0) + Pair(style, cfg, sqrt, ss[0], 0, 1) +
      Header(style, cfg, ss[1], 1) + Pair(style, cfg, sqrt, ss[1], 1, 0)
  {
    RowOfTwo(style, cfg, sqrt, ss[0], 0);
    RowOfTwo(style, cfg, sqrt, ss[1], 1);
    assert Pass(style, cfg, sqrt, ss, 1) == Header(style, cfg, ss[0], 0) + Row(style, cfg, sqrt, ss[0], 0, 2);
  }

  /** Two nodes resting on their targets at (0, 0) and (10, 0): with
      distance 20 each is drawn with its point and a line to the other at
      alpha 127.5; with distance 5 nothing is drawn. */
  lemma TwoRestingNodes(pal: Palette, cfg: Config, sqrt: real -> real)
    requires IsSqrt(sqrt)
    ensures var ns := [Node(0.0, 0.0, 0.0, 0.0, 0.5), Node(10.0, 0.0, 10.0, 0.0, 0.5)];
      cfg.distance == 20.0 ==>
        Frame(Single(pal), cfg, sqrt, ns) ==
          [Point(0.0, 0.0, Opaque(pal.line), cfg.nodeWidth),
           Line(0.0, 0.0, 10.0, 0.0, WithAlpha(pal.line, 127.5), cfg.strokeWidth),
           Point(10.0, 0.0, Opaque(pal.line), cfg.nodeWidth),
           Line(10.0, 0.0, 0.0, 0.0, WithAlpha(pal.line, 127.5), cfg.strokeWidth)]
    ensures var ns := [Node(0.0, 0.0, 0.0, 0.0, 0.5), Node(10.0, 0.0, 10.0, 0.0, 0.5)];
      cfg.distance == 5.0 ==> Frame(Single(pal), cfg, sqrt, ns) == []
  {
    var ns := [Node(0.0, 0.0, 0.0, 0.0, 0.5), Node(10.0, 0.0, 10.0, 0.0, 0.5)];
    var ss := Fields(Single(pal), ns);
    FieldsAt(Single(pal), ns, 0);
    FieldsAt(Single(pal), ns, 1);
    assert Step(ns[0]) == ns[0] && Step(ns[1]) == ns[1];
    assert ss[0] == MovedUpTo(ns, 1) == ns;
    assert ss[1] == MovedUpTo(ns, 2) == ns;
    PassOfTwo(Single(pal), cfg, sqrt, ss);
    SqrtOf(sqrt, 100.0, 10.0);
    assert Dist(sqrt, 0.0, 0.0, 10.0, 0.0) == 10.0;
    assert Dist(sqrt, 10.0, 0.0, 0.0, 0.0) == 10.0;
    PairSelected(Single(pal), cfg, sqrt, ns, 0, 1);
    PairSelected(Single(pal), cfg, sqrt, ns, 1, 0);
    if cfg.distance == 20.0 {
      SingleEdge(pal, cfg, sqrt, ns, 0, 1);
      SingleEdge(pal, cfg, sqrt, ns, 1, 0);
    }
  }

  /** The export of the two nodes of `LiveFrameAsymmetric` at scale 1: it
      moves nothing, so it draws the pair from both ends, each node's point
      before its line, both lines at alpha 85. */
  lemma ExportOfTwo(pal: Palette, cfg: Config, sqrt: real -> real)
    requires IsSqrt(sqrt) && cfg.distance == 15.0
    ensures var ns := [Node(0.0, 0.0, 0.0, 0.0, 0.5), Node(0.0, 10.0, 0.0, 30.0, 0.5)];
      Frame(Export(pal, 1.0), cfg, sqrt, ns) ==
        [Point(0.0, 0.0, Opaque(pal.line), cfg.nodeWidth),
         Line(0.0, 0.0, 0.0, 10.0, WithAlpha(pal.line, 85.0), cfg.strokeWidth),
         Point(0.0, 10.0, Opaque(pal.line), cfg.nodeWidth),
         Line(0.0, 10.0, 0.0, 0.0, WithAlpha(pal.line, 85.0), cfg.strokeWidth)]
  {
    var ns := [Node(0.0, 0.0, 0.0, 0.0, 0.5), Node(0.0, 10.0, 0.0, 30.0, 0.5)];
    var es := Fields(Export(pal, 1.0), ns);
    FieldsAt(Export(pal, 1.0), ns, 0);
    FieldsAt(Export(pal, 1.0), ns, 1);
    assert es[0] == ns && es[1] == ns;
    PassOfTwo(Export(pal, 1.0), cfg, sqrt, es);
    SqrtOf(sqrt, 100.0, 10.0);
    assert Dist(sqrt, 0.0, 0.0, 0.0, 10.0) == 10.0;
    assert Close(cfg, ns[0], ns[1]);
    ExportBothEnds(pal, 1.0, cfg, sqrt, ns, 0, 1);
  }

  /** In the screen views the two visits of a pair are not alike: node 1
      takes its step between them. Here node 0 rests at (0, 0) and node 1 at
      (0, 10) heads for (0, 30) at speed 0.5; with distance 15 the pair is
      drawn from node 0 (length 10, alpha 85) but not from node 1, which has
      moved to (0, 20) by then. The export, which moves nothing, draws it
      from both ends. */
  lemma LiveFrameAsymmetric(pal: Palette, cfg: Config, sqrt: real -> real)
    requires IsSqrt(sqrt) && cfg.distance == 15.0
    ensures var ns := [Node(0.0, 0.0, 0.0, 0.0, 0.5), Node(0.0, 10.0, 0.0, 30.0, 0.5)];
      Frame(Single(pal), cfg, sqrt, ns) ==
        [Point(0.0, 0.0, Opaque(pal.line), cfg.nodeWidth),
         Line(0.0, 0.0, 0.0, 10.0, WithAlpha(pal.line, 85.0), cfg.strokeWidth)]
      && |Frame(Export(pal, 1.0), cfg, sqrt, ns)| == 4
  {
    var ns := [Node(0.0, 0.0, 0.0, 0.0, 0.5), Node(0.0, 10.0, 0.0, 30.0, 0.5)];
    var moved := Node(0.0, 20.0, 0.0, 30.0, 0.5);
    var ss := Fields(Single(pal), ns);
    FieldsAt(Single(pal), ns, 0);
    FieldsAt(Single(pal), ns, 1);
    assert Step(ns[0]) == ns[0];
    assert Step(ns[1]) == moved;
    assert ss[0] == MovedUpTo(ns, 1) == ns;
    assert ss[1] == MovedUpTo(ns, 2) == [ns[0], moved];
    PassOfTwo(Single(pal), cfg, sqrt, ss);
    SqrtOf(sqrt, 100.0, 10.0);
    assert Dist(sqrt, 0.0, 0.0, 0.0, 10.0) == 10.0;
    PairSelected(Single(pal), cfg, sqrt, ss[0], 0, 1);
    SingleEdge(pal, cfg, sqrt, ss[0], 0, 1);
    PairSelected(Single(pal), cfg, sqrt, ss[1], 1, 0);
    assert !Close(cfg, ss[1][1], ss[1][0]);
    ExportOfTwo(pal, cfg, sqrt);
  }
}
