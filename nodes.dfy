/** The node field: how a node is created, how it moves one frame towards
    its target, and how it is given a new target once it has arrived. */
module Nodes {
  import opened P5Math

  /** The live settings the sketch reads from its sliders and canvas each
      frame: canvas size, point count, connection distance, speed slider,
      point and line stroke widths. */
  datatype Config = Config(
    width: real, height: real,
    points: nat,
    distance: real,
    speed: real,
    nodeWidth: real, strokeWidth: real)

  /** A node: its position, its target and its own easing factor. */
  datatype Node = Node(x: real, y: real, tx: real, ty: real, speed: real)

  /** The five unit samples `createNode` draws, in the order it draws them. */
  datatype NodeDraws = NodeDraws(x: real, y: real, tx: real, ty: real, speed: real)

  predicate ValidNodeDraws(u: NodeDraws) {
    IsUnit(u.x) && IsUnit(u.y) && IsUnit(u.tx) && IsUnit(u.ty) && IsUnit(u.speed)
  }

  /** The two unit samples a retargeted node draws. */
  datatype TargetDraws = TargetDraws(tx: real, ty: real)

  predicate ValidTargetDraws(u: TargetDraws) {
    IsUnit(u.tx) && IsUnit(u.ty)
  }

  predicate InCanvas(cfg: Config, x: real, y: real) {
    0.0 <= x < cfg.width && 0.0 <= y < cfg.height
  }

  /** The lower bound of a node's speed factor, drawn as
      `random(0.001, speed / 1000)`. */
  const MinSpeed: real := 0.001

  /** `createNode`: position and target uniform over the canvas, speed
      between 0.001 and a thousandth of the speed setting. */
  function CreateNode(cfg: Config, u: NodeDraws): (n: Node)
    ensures ValidNodeDraws(u) && 0.0 < cfg.width && 0.0 < cfg.height ==>
      InCanvas(cfg, n.x, n.y) && InCanvas(cfg, n.tx, n.ty)
    ensures ValidNodeDraws(u) && 1.0 <= cfg.speed ==> MinSpeed <= n.speed <= cfg.speed / 1000.0
    ensures ValidNodeDraws(u) && 1.0 <= cfg.speed <= 1000.0 ==> 0.0 < n.speed <= 1.0
  {
    Node(RandomUpTo(u.x, cfg.width), RandomUpTo(u.y, cfg.height),
         RandomUpTo(u.tx, cfg.width), RandomUpTo(u.ty, cfg.height),
         RandomBetween(u.speed, MinSpeed, cfg.speed / 1000.0))
  }

  /** One frame of motion: `x = lerp(x, tx, speed)`, then the same for `y`. */
  function Step(n: Node): Node {
    n.(x := Lerp(n.x, n.tx, n.speed), y := Lerp(n.y, n.ty, n.speed))
  }

  /** The field after the first `m` nodes have taken their step this frame,
      one node after the other. */
  function MovedUpTo(ns: seq<Node>, m: nat): (r: seq<Node>)
    requires m <= |ns|
    ensures |r| == |ns|
  {
    if m == 0 then ns else MovedUpTo(ns, m - 1)[m - 1 := Step(ns[m - 1])]
  }

  /** Partway through a frame, the nodes before `m` have taken exactly one
      step and the others none. */
  lemma {:induction false} MovedUpToSpec(ns: seq<Node>, m: nat)
    requires m <= |ns|
    ensures forall k :: 0 <= k < |ns| ==> MovedUpTo(ns, m)[k] == if k < m then Step(ns[k]) else ns[k]
  {
    if m > 0 {
      MovedUpToSpec(ns, m - 1);
    }
  }

  /** The field after every node has taken its step. */
  function Advanced(ns: seq<Node>): (r: seq<Node>)
    ensures |r| == |ns|
  {
    MovedUpTo(ns, |ns|)
  }

  function Abs(v: real): real {
    if v < 0.0 then -v else v
  }

  /** The square of a node's distance to its target. */
  function GapSquared(n: Node): real {
    Dist2(n.x, n.y, n.tx, n.ty)
  }

  /** A step keeps target and speed and shrinks the gap to the target by the
      factor `1 - speed` on each axis, so the distance to the target never
      grows, and with a speed below 1 a node short of its target never
      reaches it exactly. */
  lemma StepApproaches(n: Node)
    requires 0.0 < n.speed <= 1.0
    ensures Step(n).tx == n.tx && Step(n).ty == n.ty && Step(n).speed == n.speed
    ensures Abs(n.tx - Step(n).x) == (1.0 - n.speed) * Abs(n.tx - n.x) <= Abs(n.tx - n.x)
    ensures Abs(n.ty - Step(n).y) == (1.0 - n.speed) * Abs(n.ty - n.y) <= Abs(n.ty - n.y)
    ensures GapSquared(Step(n)) <= GapSquared(n)
    ensures n.speed < 1.0 && 0.0 < GapSquared(n) ==> 0.0 < GapSquared(Step(n))
  {
    AxisApproaches(n.x, n.tx, n.speed);
    AxisApproaches(n.y, n.ty, n.speed);
    SquareNonneg(n.tx - Step(n).x);
    SquareNonneg(n.ty - Step(n).y);
  }

  /** One axis of `Step`: `x' = lerp(x, tx, s)`. */
  lemma AxisApproaches(x: real, tx: real, s: real)
    requires 0.0 < s <= 1.0
    ensures Abs(tx - Lerp(x, tx, s)) == (1.0 - s) * Abs(tx - x) <= Abs(tx - x)
    ensures Sq(tx - Lerp(x, tx, s)) <= Sq(tx - x)
    ensures s < 1.0 && tx != x ==> 0.0 < Sq(tx - Lerp(x, tx, s))
  {
    ShrinkAbs(1.0 - s, tx - x);
    SquareOfAbs(tx - Lerp(x, tx, s));
    SquareOfAbs(tx - x);
    SquareLe(Abs(tx - Lerp(x, tx, s)), Abs(tx - x));
    if s < 1.0 && tx != x {
      MulNonzero(1.0 - s, tx - x);
      SquareNonzero(tx - Lerp(x, tx, s));
    }
  }

  lemma ShrinkAbs(f: real, v: real)
    requires 0.0 <= f <= 1.0
    ensures Abs(Mul(f, v)) == Mul(f, Abs(v)) <= Abs(v)
  {
    MulNonneg(f, Abs(v));
    MulNonneg(1.0 - f, Abs(v));
    if v < 0.0 {
      assert Mul(f, v) == -Mul(f, -v);
    }
  }

  lemma SquareOfAbs(v: real)
    ensures Sq(v) == Sq(Abs(v))
  {
  }

  lemma SquareLe(p: real, q: real)
    requires 0.0 <= p <= q
    ensures Sq(p) <= Sq(q)
  {
    MulNonneg(p, q - p);
    MulNonneg(q, q - p);
  }

  /** `updateNodes`' arrival test: the distance to the target is below 5. */
  function Arrived(sqrt: real -> real, n: Node): bool
    requires IsSqrt(sqrt)
  {
    Dist(sqrt, n.x, n.y, n.tx, n.ty) < 5.0
  }

  /** Arrival compared through squares: the squared gap is below 25. */
  lemma ArrivedIffGapBelow25(sqrt: real -> real, n: Node)
    requires IsSqrt(sqrt)
    ensures Arrived(sqrt, n) <==> GapSquared(n) < 25.0
  {
    DistSquared(sqrt, n.x, n.y, n.tx, n.ty);
    BelowIffSquareBelow(Dist(sqrt, n.x, n.y, n.tx, n.ty), GapSquared(n), 5.0);
  }

  /** One node of `updateNodes`: an arrived node draws a new target. */
  function Retarget(sqrt: real -> real, cfg: Config, n: Node, u: TargetDraws): Node
    requires IsSqrt(sqrt)
  {
    if Arrived(sqrt, n) then
      n.(tx := RandomUpTo(u.tx, cfg.width), ty := RandomUpTo(u.ty, cfg.height))
    else
      n
  }

  /** Retargeting never moves a node or changes its speed; it leaves a node
      that has not arrived untouched and gives an arrived one a target inside
      the canvas. */
  lemma RetargetSpec(sqrt: real -> real, cfg: Config, n: Node, u: TargetDraws)
    requires IsSqrt(sqrt)
    ensures Retarget(sqrt, cfg, n, u).x == n.x && Retarget(sqrt, cfg, n, u).y == n.y
    ensures Retarget(sqrt, cfg, n, u).speed == n.speed
    ensures GapSquared(n) >= 25.0 ==> Retarget(sqrt, cfg, n, u) == n
    ensures GapSquared(n) < 25.0 && ValidTargetDraws(u) && 0.0 < cfg.width && 0.0 < cfg.height ==>
      InCanvas(cfg, Retarget(sqrt, cfg, n, u).tx, Retarget(sqrt, cfg, n, u).ty)
  {
    ArrivedIffGapBelow25(sqrt, n);
  }

  /** `updateNodes` applied to the whole field. */
  function Retargeted(sqrt: real -> real, cfg: Config, ns: seq<Node>, us: seq<TargetDraws>): (r: seq<Node>)
    requires IsSqrt(sqrt) && |us| == |ns|
    ensures |r| == |ns|
  {
    seq(|ns|, k requires 0 <= k < |ns| => Retarget(sqrt, cfg, ns[k], us[k]))
  }

  /** `reinitializeNodes`: `cfg.points` fresh nodes, the k-th from the k-th draws. */
  function FreshField(cfg: Config, us: seq<NodeDraws>): (r: seq<Node>)
    requires |us| == cfg.points
    ensures |r| == cfg.points
  {
    seq(cfg.points, k requires 0 <= k < cfg.points => CreateNode(cfg, us[k]))
  }
}
