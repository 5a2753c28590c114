/** The handful of p5.js helpers the sketch depends on, stated by their
    defining formulas over `real`. Floating point is not modelled:
    `random()` is replaced by unit samples supplied by the caller and
    `Math.sqrt` by an oracle `sqrt` that must satisfy `IsSqrt`.

    Products of two variables are written through `Mul` and `Sq`, so that the
    arithmetic lemmas below apply to the very terms the callers mention. */
module P5Math {

  function Mul(a: real, b: real): real {
    a * b
  }

  function Sq(v: real): real {
    v * v
  }

  /** A unit sample, as produced by `Math.random()`. */
  predicate IsUnit(u: real) {
    0.0 <= u < 1.0
  }

  /** p5 `lerp(start, stop, amt)`. The remaining gap to `stop` shrinks by
      the factor `1 - amt`. */
  function Lerp(start: real, stop: real, amt: real): (r: real)
    ensures stop - r == Mul(1.0 - amt, stop - start)
  {
    amt * (stop - start) + start
  }

  /** p5 `map(n, start1, stop1, start2, stop2)` (without clamping). */
  function Remap(n: real, start1: real, stop1: real, start2: real, stop2: real): real
    requires start1 != stop1
  {
    (n - start1) / (stop1 - start1) * (stop2 - start2) + start2
  }

  /** p5 `random(m)` for a number `m`, given the unit sample `u`. */
  function RandomUpTo(u: real, m: real): (r: real)
    ensures IsUnit(u) && 0.0 <= m ==> 0.0 <= r <= m
    ensures IsUnit(u) && 0.0 < m ==> r < m
  {
    if IsUnit(u) && 0.0 <= m then UnitScaled(u, m); Mul(u, m) else Mul(u, m)
  }

  /** p5 `random(lo, hi)`: `rand * (hi - lo) + lo` once the bounds are in
      order. */
  function RandomBetween(u: real, lo: real, hi: real): (r: real)
    ensures IsUnit(u) && lo <= hi ==> lo <= r <= hi
    ensures IsUnit(u) && hi < lo ==> hi <= r <= lo
  {
    if lo > hi then RandomUpTo(u, lo - hi) + hi else RandomUpTo(u, hi - lo) + lo
  }

  /** The squared Euclidean distance between two points. */
  function Dist2(x1: real, y1: real, x2: real, y2: real): (r: real)
    ensures 0.0 <= r
  {
    SquareNonneg(x2 - x1);
    SquareNonneg(y2 - y1);
    Sq(x2 - x1) + Sq(y2 - y1)
  }

  /** `sqrt` returns the non-negative square root of every non-negative real. */
  ghost predicate IsSqrt(sqrt: real -> real) {
    (forall q :: 0.0 <= q ==> 0.0 <= sqrt(q)) &&
    (forall q {:trigger Sq(sqrt(q))} :: 0.0 <= q ==> Sq(sqrt(q)) == q)
  }

  /** p5 `dist(x1, y1, x2, y2)`. */
  function Dist(sqrt: real -> real, x1: real, y1: real, x2: real, y2: real): (d: real)
    requires IsSqrt(sqrt)
    ensures 0.0 <= d
  {
    sqrt(Dist2(x1, y1, x2, y2))
  }

  /** The square of a distance is the sum of the squared coordinate gaps. */
  lemma DistSquared(sqrt: real -> real, x1: real, y1: real, x2: real, y2: real)
    requires IsSqrt(sqrt)
    ensures Sq(Dist(sqrt, x1, y1, x2, y2)) == Dist2(x1, y1, x2, y2)
  {
    var q := Dist2(x1, y1, x2, y2);
    assert Sq(sqrt(q)) == q;
  }

  lemma MulNonneg(a: real, b: real)
    requires 0.0 <= a && 0.0 <= b
    ensures 0.0 <= Mul(a, b)
  {
  }

  lemma MulPos(a: real, b: real)
    requires 0.0 < a && 0.0 < b
    ensures 0.0 < Mul(a, b)
  {
  }

  lemma MulNonzero(a: real, b: real)
    requires a != 0.0 && b != 0.0
    ensures Mul(a, b) != 0.0
  {
  }

  lemma SquareNonneg(v: real)
    ensures 0.0 <= Sq(v)
  {
    if v < 0.0 {
      MulNonneg(-v, -v);
    } else {
      MulNonneg(v, v);
    }
  }

  lemma SquareNonzero(v: real)
    requires v != 0.0
    ensures 0.0 < Sq(v)
  {
    if v < 0.0 {
      MulPos(-v, -v);
    } else {
      MulPos(v, v);
    }
  }

  /** A unit sample scales a non-negative `m` into `[0, m]`, and a positive
      one into `[0, m)`. */
  lemma UnitScaled(u: real, m: real)
    requires IsUnit(u) && 0.0 <= m
    ensures 0.0 <= Mul(u, m) <= m
    ensures 0.0 < m ==> Mul(u, m) < m
  {
    MulNonneg(u, m);
    MulNonneg(1.0 - u, m);
    if 0.0 < m {
      MulPos(1.0 - u, m);
    }
  }

  /** `n / w` is a unit value for `0 <= n < w`. */
  lemma Fraction(n: real, w: real)
    requires 0.0 <= n < w
    ensures IsUnit(n / w)
  {
    var t := n / w;
    assert Mul(t, w) == n;
    if t < 0.0 {
      MulPos(-t, w);
    }
    if 1.0 <= t {
      MulNonneg(t - 1.0, w);
    }
  }

  lemma SquareStrictlyMonotone(a: real, b: real)
    requires 0.0 <= a < b
    ensures Sq(a) < Sq(b)
  {
    MulNonneg(a, b - a);
    MulPos(b, b - a);
  }

  /** Two non-negative reals with the same square are equal. */
  lemma SquareInjective(a: real, b: real)
    requires 0.0 <= a && 0.0 <= b && Sq(a) == Sq(b)
    ensures a == b
  {
    if a < b {
      SquareStrictlyMonotone(a, b);
    } else if b < a {
      SquareStrictlyMonotone(b, a);
    }
  }

  /** A distance is below a threshold iff its square is below the square of
      a positive threshold; no distance is below a non-positive threshold. */
  lemma BelowIffSquareBelow(d: real, q: real, limit: real)
    requires 0.0 <= d && Sq(d) == q
    ensures d < limit <==> 0.0 < limit && q < Sq(limit)
  {
    if d < limit {
      SquareStrictlyMonotone(d, limit);
    } else if 0.0 < limit && d != limit {
      SquareStrictlyMonotone(limit, d);
    }
  }

  /** Scaling both points by `k >= 0` scales their distance by `k`. */
  lemma DistScales(sqrt: real -> real, k: real, x1: real, y1: real, x2: real, y2: real)
    requires IsSqrt(sqrt) && 0.0 <= k
    ensures Dist(sqrt, Mul(x1, k), Mul(y1, k), Mul(x2, k), Mul(y2, k)) == Mul(Dist(sqrt, x1, y1, x2, y2), k)
  {
    var d := Dist(sqrt, x1, y1, x2, y2);
    var e := Dist(sqrt, Mul(x1, k), Mul(y1, k), Mul(x2, k), Mul(y2, k));
    DistSquared(sqrt, x1, y1, x2, y2);
    DistSquared(sqrt, Mul(x1, k), Mul(y1, k), Mul(x2, k), Mul(y2, k));
    assert Mul(x2, k) - Mul(x1, k) == Mul(x2 - x1, k);
    assert Mul(y2, k) - Mul(y1, k) == Mul(y2 - y1, k);
    SquareOfProduct(x2 - x1, k);
    SquareOfProduct(y2 - y1, k);
    SquareOfProduct(d, k);
    assert Sq(e) == Mul(Sq(x2 - x1), Sq(k)) + Mul(Sq(y2 - y1), Sq(k));
    assert Sq(e) == Mul(Sq(d), Sq(k));
    MulNonneg(d, k);
    SquareInjective(e, Mul(d, k));
  }

  lemma SquareOfProduct(a: real, k: real)
    ensures Sq(Mul(a, k)) == Mul(Sq(a), Sq(k))
  {
  }

  /** Multiplying both sides by the same positive factor keeps a strict order. */
  lemma ScaledLess(a: real, b: real, k: real)
    requires 0.0 < k
    ensures Mul(a, k) < Mul(b, k) <==> a < b
  {
    if a < b {
      MulPos(b - a, k);
    } else {
      MulNonneg(a - b, k);
    }
  }

  /** The distance does not depend on the order of the two points. */
  lemma DistSymmetric(sqrt: real -> real, x1: real, y1: real, x2: real, y2: real)
    requires IsSqrt(sqrt)
    ensures Dist(sqrt, x1, y1, x2, y2) == Dist(sqrt, x2, y2, x1, y1)
  {
    assert Sq(x2 - x1) == Sq(x1 - x2);
    assert Sq(y2 - y1) == Sq(y1 - y2);
  }

  /** `map` over `[start1, stop1)` onto an increasing or a decreasing range. */
  lemma RemapWithin(n: real, start1: real, stop1: real, start2: real, stop2: real)
    requires start1 <= n < stop1
    ensures start2 < stop2 ==> start2 <= Remap(n, start1, stop1, start2, stop2) < stop2
    ensures stop2 < start2 ==> stop2 < Remap(n, start1, stop1, start2, stop2) <= start2
  {
    var t := (n - start1) / (stop1 - start1);
    Fraction(n - start1, stop1 - start1);
    if start2 < stop2 {
      UnitScaled(t, stop2 - start2);
    } else if stop2 < start2 {
      UnitScaled(t, start2 - stop2);
    }
  }

  /** `map` from `[0, w)` gives the same value once `n` and `w` are both
      scaled by the same non-zero factor. */
  lemma RemapScaled(n: real, w: real, k: real, start2: real, stop2: real)
    requires w != 0.0 && k != 0.0
    ensures Mul(w, k) != 0.0
    ensures Remap(Mul(n, k), 0.0, Mul(w, k), start2, stop2) == Remap(n, 0.0, w, start2, stop2)
  {
    MulNonzero(w, k);
    var q := n / w;
    assert q * w == n;
    assert n * k == (w * k) * q;
    assert (n * k) / (w * k) == q;
  }

  /** `map(n, 0, w, 255, 0)` is `255 * (1 - n / w)`. */
  lemma RemapFade(n: real, w: real)
    requires w != 0.0
    ensures Remap(n, 0.0, w, 255.0, 0.0) == 255.0 * (1.0 - n / w)
  {
  }
}
