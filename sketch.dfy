/** The sketch's mutable state and the procedures of sketch.js that update it
    or read it: `reinitializeNodes`, `drawCircuits`, `drawSplitCircuits`,
    `updateNodes`, `saveHighRes`, `keyPressed` and the frame body `draw`.
    Every drawing call is appended to a returned command list; the slider
    values of the current frame arrive as a `Config`, the random draws as unit
    samples and `Math.sqrt` as the oracle `sqrt`. */
module CircuitSketch {
  import opened P5Math
  import opened Palettes
  import opened Nodes
  import opened Render
  import opened Keys

  class Sketch {
    /** The node field, in array order. */
    var circuitNodes: seq<Node>
    /** The catalogue index used outside split mode and by the export. */
    var currentPalette: nat
    var splitMode: bool

    ghost predicate Valid()
      reads this
    {
      currentPalette < |Catalog|
    }

    /** The globals' initial values: no nodes yet, the first palette, split
        mode off. */
    constructor()
      ensures Valid()
      ensures circuitNodes == [] && currentPalette == 0 && !splitMode
    {
      circuitNodes := [];
      currentPalette := 0;
      splitMode := false;
    }

    /** `reinitializeNodes`: empties the field and pushes `cfg.points` fresh
        nodes, the k-th made from the k-th draws. */
    method ReinitializeNodes(cfg: Config, us: seq<NodeDraws>)
      requires Valid() && |us| == cfg.points
      modifies this`circuitNodes
      ensures Valid()
      ensures circuitNodes == FreshField(cfg, us)
    {
      circuitNodes := [];
      var i := 0;
      while i < cfg.points
        invariant i <= cfg.points
        invariant circuitNodes == FreshField(cfg, us)[..i]
      {
        circuitNodes := circuitNodes + [CreateNode(cfg, us[i])];
        i := i + 1;
      }
    }

    /** `drawCircuits`: each node in turn takes its step and is then tested
        against every other node as the field stands at that moment. */
    method DrawCircuits(cfg: Config, sqrt: real -> real) returns (cmds: seq<Cmd>)
      requires IsSqrt(sqrt) && Valid()
      modifies this`circuitNodes
      ensures Valid()
      ensures circuitNodes == Advanced(old(circuitNodes))
      ensures cmds == Frame(Single(Catalog[old(currentPalette)]), cfg, sqrt, old(circuitNodes))
    {
      var palette := Catalog[currentPalette];
      ghost var style := Single(palette);
      ghost var ns := circuitNodes;
      ghost var ss := Fields(style, ns);
      cmds := [];
      var i := 0;
      while i < |circuitNodes|
        invariant |circuitNodes| == |ns| && i <= |ns|
        invariant circuitNodes == MovedUpTo(ns, i)
        invariant cmds == Pass(style, cfg, sqrt, ss, i)
      {
        var node := circuitNodes[i];
        node := node.(x := Lerp(node.x, node.tx, node.speed));
        node := node.(y := Lerp(node.y, node.ty, node.speed));
        circuitNodes := circuitNodes[i := node];
        FieldsStep(style, ns, i);
        var row := ConnectSingle(cfg, sqrt, palette, i);
        cmds := cmds + row;
        i := i + 1;
      }
    }

    /** The inner loop of `drawCircuits` for node i: a point marker and a
        fading line for every other node closer than the connection distance. */
    method ConnectSingle(cfg: Config, sqrt: real -> real, palette: Palette, i: nat) returns (row: seq<Cmd>)
      requires IsSqrt(sqrt) && i < |circuitNodes|
      ensures row == Row(Single(palette), cfg, sqrt, circuitNodes, i, |circuitNodes|)
    {
      var node := circuitNodes[i];
      row := [];
      var j := 0;
      while j < |circuitNodes|
        invariant j <= |circuitNodes|
        invariant row == Row(Single(palette), cfg, sqrt, circuitNodes, i, j)
      {
        if i != j {
          var other := circuitNodes[j];
          var d := Dist(sqrt, node.x, node.y, other.x, other.y);
          if d < cfg.distance {
            var alpha := Remap(d, 0.0, cfg.distance, 255.0, 0.0);
            var lineCol := WithAlpha(palette.line, alpha);
            row := row + [Point(node.x, node.y, Opaque(palette.line), cfg.nodeWidth)];
            row := row + [Line(node.x, node.y, other.x, other.y, lineCol, cfg.strokeWidth)];
          }
        }
        j := j + 1;
      }
    }

    /** `drawSplitCircuits`: as `drawCircuits`, but each node first draws its
        point in the colour of its half, and lines are coloured by side. */
    method DrawSplitCircuits(cfg: Config, sqrt: real -> real) returns (cmds: seq<Cmd>)
      requires IsSqrt(sqrt) && Valid()
      modifies this`circuitNodes
      ensures Valid()
      ensures circuitNodes == Advanced(old(circuitNodes))
      ensures cmds == Frame(Split, cfg, sqrt, old(circuitNodes))
    {
      var leftPalette := Catalog[LeftIndex];
      var rightPalette := Catalog[RightIndex];
      ghost var ns := circuitNodes;
      ghost var ss := Fields(Split, ns);
      cmds := [];
      var i := 0;
      while i < |circuitNodes|
        invariant |circuitNodes| == |ns| && i <= |ns|
        invariant circuitNodes == MovedUpTo(ns, i)
        invariant cmds == Pass(Split, cfg, sqrt, ss, i)
      {
        var node := circuitNodes[i];
        node := node.(x := Lerp(node.x, node.tx, node.speed));
        node := node.(y := Lerp(node.y, node.ty, node.speed));
        circuitNodes := circuitNodes[i := node];
        FieldsStep(Split, ns, i);
        var isLeft := node.x < cfg.width / 2.0;
        var palette := if isLeft then leftPalette else rightPalette;
        SidePaletteSpec(isLeft);
        assert palette == SidePalette(IsLeft(cfg, ss[i][i]));
        cmds := cmds + [Point(node.x, node.y, Opaque(palette.line), cfg.nodeWidth)];
        var row := ConnectSplit(cfg, sqrt, i, isLeft, palette);
        cmds := cmds + row;
        i := i + 1;
      }
    }

    /** The inner loop of `drawSplitCircuits` for node i: a fading line for
        every other node closer than the connection distance, in the colour of
        the node's half, or in grey when the other node is across the midline. */
    method ConnectSplit(cfg: Config, sqrt: real -> real, i: nat, isLeft: bool, palette: Palette) returns (row: seq<Cmd>)
      requires IsSqrt(sqrt) && i < |circuitNodes|
      requires isLeft == IsLeft(cfg, circuitNodes[i]) && palette == SidePalette(isLeft)
      ensures row == Row(Split, cfg, sqrt, circuitNodes, i, |circuitNodes|)
    {
      var node := circuitNodes[i];
      row := [];
      var j := 0;
      while j < |circuitNodes|
        invariant j <= |circuitNodes|
        invariant row == Row(Split, cfg, sqrt, circuitNodes, i, j)
      {
        if i != j {
          var other := circuitNodes[j];
          var otherIsLeft := other.x < cfg.width / 2.0;
          var d := Dist(sqrt, node.x, node.y, other.x, other.y);
          if d < cfg.distance {
            var alpha := Remap(d, 0.0, cfg.distance, 255.0, 0.0);
            var connColor;
            if isLeft != otherIsLeft {
              connColor := GreyAlpha(Remap(d, 0.0, cfg.distance, 150.0, 255.0), alpha);
            } else {
              connColor := WithAlpha(palette.line, alpha);
            }
            row := row + [Line(node.x, node.y, other.x, other.y, connColor, cfg.strokeWidth)];
          }
        }
        j := j + 1;
      }
    }

    /** `updateNodes`: every node whose distance to its target is below 5
        draws a new target; node k uses the k-th pair of samples. */
    method UpdateNodes(cfg: Config, sqrt: real -> real, us: seq<TargetDraws>)
      requires IsSqrt(sqrt) && Valid() && |us| == |circuitNodes|
      modifies this`circuitNodes
      ensures Valid()
      ensures circuitNodes == Retargeted(sqrt, cfg, old(circuitNodes), us)
    {
      ghost var ns := circuitNodes;
      var i := 0;
      while i < |circuitNodes|
        invariant |circuitNodes| == |ns| && i <= |ns|
        invariant forall k :: 0 <= k < |ns| ==>
          circuitNodes[k] == if k < i then Retarget(sqrt, cfg, ns[k], us[k]) else ns[k]
      {
        var node := circuitNodes[i];
        var d := Dist(sqrt, node.x, node.y, node.tx, node.ty);
        if d < 5.0 {
          node := node.(tx := RandomUpTo(us[i].tx, cfg.width));
          node := node.(ty := RandomUpTo(us[i].ty, cfg.height));
          circuitNodes := circuitNodes[i := node];
        }
        i := i + 1;
      }
    }

    /** `saveHighRes(w, h)`: draws the field, unmoved, on a `w` x `h` buffer
        in the current palette (whatever the mode), every coordinate and
        width scaled by `w / width`. */
    method SaveHighRes(w: int, h: int, cfg: Config, sqrt: real -> real) returns (pg: Surface)
      requires IsSqrt(sqrt) && Valid() && cfg.width != 0.0
      ensures pg == HighRes(cfg, sqrt, circuitNodes, currentPalette, w, h)
    {
      var scaleFactor := (w as real) / cfg.width;
      var palette := Catalog[currentPalette];
      ghost var style := Export(palette, scaleFactor);
      ghost var ss := Fields(style, circuitNodes);
      var background := Background(palette.bg);
      var cmds := [];
      var i := 0;
      while i < |circuitNodes|
        invariant i <= |circuitNodes|
        invariant cmds == Pass(style, cfg, sqrt, ss, i)
      {
        var node := circuitNodes[i];
        FieldsAt(style, circuitNodes, i);
        assert ss[i] == circuitNodes;
        var x := Mul(node.x, scaleFactor);
        var y := Mul(node.y, scaleFactor);
        cmds := cmds + [Point(x, y, Opaque(palette.line), Mul(cfg.nodeWidth, scaleFactor))];
        var row := ConnectExport(cfg, sqrt, palette, scaleFactor, i);
        cmds := cmds + row;
        i := i + 1;
      }
      pg := Surface(w, h, [background] + cmds);
    }

    /** The inner loop of `saveHighRes` for node i: the scaled fading line to
        every other node closer than the scaled connection distance. */
    method ConnectExport(cfg: Config, sqrt: real -> real, palette: Palette, scaleFactor: real, i: nat) returns (row: seq<Cmd>)
      requires IsSqrt(sqrt) && i < |circuitNodes|
      ensures row == Row(Export(palette, scaleFactor), cfg, sqrt, circuitNodes, i, |circuitNodes|)
    {
      var node := circuitNodes[i];
      var x := Mul(node.x, scaleFactor);
      var y := Mul(node.y, scaleFactor);
      row := [];
      var j := 0;
      while j < |circuitNodes|
        invariant j <= |circuitNodes|
        invariant row == Row(Export(palette, scaleFactor), cfg, sqrt, circuitNodes, i, j)
      {
        if i != j {
          var other := circuitNodes[j];
          var ox := Mul(other.x, scaleFactor);
          var oy := Mul(other.y, scaleFactor);
          var d := Dist(sqrt, x, y, ox, oy);
          if d < Mul(cfg.distance, scaleFactor) {
            var alpha := Remap(d, 0.0, Mul(cfg.distance, scaleFactor), 255.0, 0.0);
            var lineCol := WithAlpha(palette.line, alpha);
            row := row + [Line(x, y, ox, oy, lineCol, Mul(cfg.strokeWidth, scaleFactor))];
          }
        }
        j := j + 1;
      }
    }

    /** `keyPressed`: digits select a palette, M toggles split mode and S
        exports at 2481 x 3507 on the spot. */
    method KeyPressed(key: char, cfg: Config, sqrt: real -> real) returns (saved: Option<Surface>)
      requires IsSqrt(sqrt) && Valid()
      requires IsExportKey(key) ==> cfg.width != 0.0
      modifies this`currentPalette, this`splitMode
      ensures Valid()
      ensures Ui(currentPalette, splitMode) == OnKey(old(Ui(currentPalette, splitMode)), key).0
      ensures saved == match OnKey(old(Ui(currentPalette, splitMode)), key).1
        case Some(size) => Some(HighRes(cfg, sqrt, circuitNodes, currentPalette, size.w, size.h))
        case None => None
    {
      if '1' <= key <= '7' {
        currentPalette := (key as int) - ('1' as int);
      }
      saved := None;
      if key == 'S' || key == 's' {
        var pg := SaveHighRes(2481, 3507, cfg, sqrt);
        saved := Some(pg);
      }
      if key == 'M' || key == 'm' {
        splitMode := !splitMode;
      }
    }

    /** `draw`: one frame. Paints the background of the mode and runs its
        loop, with every node taking one step; then retargets the arrived
        nodes. */
    method Draw(cfg: Config, sqrt: real -> real, targets: seq<TargetDraws>) returns (cmds: seq<Cmd>)
      requires IsSqrt(sqrt) && Valid() && |targets| == |circuitNodes|
      modifies this`circuitNodes
      ensures Valid()
      ensures cmds == Screen(cfg, sqrt, old(circuitNodes), currentPalette, splitMode)
      ensures circuitNodes == Retargeted(sqrt, cfg, Advanced(old(circuitNodes)), targets)
    {
      if splitMode {
        cmds := [Rect(0.0, 0.0, cfg.width / 2.0, cfg.height, Catalog[0].bg)];
        cmds := cmds + [Rect(cfg.width / 2.0, 0.0, cfg.width / 2.0, cfg.height, Catalog[3].bg)];
        var lines := DrawSplitCircuits(cfg, sqrt);
        cmds := cmds + lines;
      } else {
        cmds := [Background(Catalog[currentPalette].bg)];
        var lines := DrawCircuits(cfg, sqrt);
        cmds := cmds + lines;
      }
      UpdateNodes(cfg, sqrt, targets);
    }
  }
}
