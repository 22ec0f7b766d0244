/** Homogeneous 3x3 transforms of the plane, the ray-casting point-in-polygon
    test and the editable `Polygon` of the polygon editor. Coordinates are
    exact reals; `cos` and `sin` of an angle in degrees are parameters. */
module Geometry2D {
  import opened Common

  datatype Vec2 = Vec2(x: real, y: real)

  /** A coordinate axis of the plane. */
  datatype Axis = X | Y

  function Coordinate(v: Vec2, axis: Axis): real {
    if axis == X then v.x else v.y
  }

  /** A 3x3 matrix; entry `mRC` sits in row `R`, column `C`. */
  datatype Mat3 = Mat3(
    m00: real, m01: real, m02: real,
    m10: real, m11: real, m12: real,
    m20: real, m21: real, m22: real)

  function Abs(x: real): real { if x < 0.0 then -x else x }

  function Identity(): Mat3 {
    Mat3(1.0, 0.0, 0.0,
         0.0, 1.0, 0.0,
         0.0, 0.0, 1.0)
  }

  /** The matrix product `a · b`. */
  function Mul(a: Mat3, b: Mat3): Mat3 {
    Mat3(
      a.m00 * b.m00 + a.m01 * b.m10 + a.m02 * b.m20,
      a.m00 * b.m01 + a.m01 * b.m11 + a.m02 * b.m21,
      a.m00 * b.m02 + a.m01 * b.m12 + a.m02 * b.m22,
      a.m10 * b.m00 + a.m11 * b.m10 + a.m12 * b.m20,
      a.m10 * b.m01 + a.m11 * b.m11 + a.m12 * b.m21,
      a.m10 * b.m02 + a.m11 * b.m12 + a.m12 * b.m22,
      a.m20 * b.m00 + a.m21 * b.m10 + a.m22 * b.m20,
      a.m20 * b.m01 + a.m21 * b.m11 + a.m22 * b.m21,
      a.m20 * b.m02 + a.m21 * b.m12 + a.m22 * b.m22)
  }

  lemma MulIdentity(m: Mat3)
    ensures Mul(Identity(), m) == m && Mul(m, Identity()) == m
  {
  }

  /** Below this magnitude the homogeneous weight is not divided out. */
  const HomogeneousEpsilon: real := 0.000000000001

  /** The homogeneous image `(hx, hy, hw)` of `(p.x, p.y, 1)`. */
  function Homogeneous(m: Mat3, p: Vec2): (real, real, real) {
    (m.m00 * p.x + m.m01 * p.y + m.m02 * 1.0,
     m.m10 * p.x + m.m11 * p.y + m.m12 * 1.0,
     m.m20 * p.x + m.m21 * p.y + m.m22 * 1.0)
  }

  /** `p` mapped by `m`: the homogeneous coordinates divided by the weight,
      or left undivided when the weight is nearly zero. */
  function Apply(m: Mat3, p: Vec2): (q: Vec2)
    ensures var h := Homogeneous(m, p);
      if Abs(h.2) < HomogeneousEpsilon then q == Vec2(h.0, h.1)
      else q.x * h.2 == h.0 && q.y * h.2 == h.1
  {
    var h := Homogeneous(m, p);
    if Abs(h.2) < HomogeneousEpsilon then Vec2(h.0, h.1)
    else Vec2(h.0 / h.2, h.1 / h.2)
  }

  function Translate(dx: real, dy: real): Mat3 {
    Mat3(1.0, 0.0, dx,
         0.0, 1.0, dy,
         0.0, 0.0, 1.0)
  }

  /** The rotation with cosine `c` and sine `s`. */
  function Rotate(c: real, s: real): Mat3 {
    Mat3(c, -s, 0.0,
         s, c, 0.0,
         0.0, 0.0, 1.0)
  }

  /** The rotation by `angle` degrees; `cosDeg(a)` and `sinDeg(a)` stand for
      the cosine and sine of `a` degrees. */
  function RotateDegrees(angle: real, cosDeg: real -> real, sinDeg: real -> real): Mat3 {
    Rotate(cosDeg(angle), sinDeg(angle))
  }

  function Scale(sx: real, sy: real): Mat3 {
    Mat3(sx, 0.0, 0.0,
         0.0, sy, 0.0,
         0.0, 0.0, 1.0)
  }

  /** The transform `m` pivoted at `pivot`: `T(pivot) · m · T(-pivot)`. */
  function AroundPoint(pivot: Vec2, m: Mat3): Mat3 {
    Mul(Translate(pivot.x, pivot.y), Mul(m, Translate(-pivot.x, -pivot.y)))
  }

  /** A matrix whose last row is `(0, 0, 1)`: it never rescales the weight. */
  predicate IsAffine(m: Mat3) {
    m.m20 == 0.0 && m.m21 == 0.0 && m.m22 == 1.0
  }

  /** An affine matrix maps a point without any division. */
  lemma ApplyAffine(m: Mat3, p: Vec2)
    requires IsAffine(m)
    ensures Apply(m, p) == AffineImage(m, p)
  {
  }

  lemma ApplyTranslate(dx: real, dy: real, p: Vec2)
    ensures Apply(Translate(dx, dy), p) == Vec2(p.x + dx, p.y + dy)
  {
    ApplyAffine(Translate(dx, dy), p);
  }

  lemma ApplyScale(sx: real, sy: real, p: Vec2)
    ensures Apply(Scale(sx, sy), p) == Vec2(sx * p.x, sy * p.y)
  {
    ApplyAffine(Scale(sx, sy), p);
  }

  lemma ApplyRotate(c: real, s: real, p: Vec2)
    ensures Apply(Rotate(c, s), p) == Vec2(c * p.x - s * p.y, s * p.x + c * p.y)
  {
    ApplyAffine(Rotate(c, s), p);
  }

  /** Multiplying affine matrices composes their maps, `a` after `b`. */
  lemma ApplyMulAffine(a: Mat3, b: Mat3, p: Vec2)
    requires IsAffine(a) && IsAffine(b)
    ensures IsAffine(Mul(a, b))
    ensures Apply(Mul(a, b), p) == Apply(a, Apply(b, p))
  {
    MulAffine(a, b);
    ApplyAffine(b, p);
    ApplyAffine(a, Apply(b, p));
    ApplyAffine(Mul(a, b), p);
    AffineCompose(a, b, p);
  }

  /** The division-free image of `p` under an affine matrix. */
  function AffineImage(m: Mat3, p: Vec2): Vec2 {
    Vec2(m.m00 * p.x + m.m01 * p.y + m.m02, m.m10 * p.x + m.m11 * p.y + m.m12)
  }

  lemma AffineCompose(a: Mat3, b: Mat3, p: Vec2)
    requires IsAffine(b)
    ensures AffineImage(Mul(a, b), p) == AffineImage(a, AffineImage(b, p))
  {
    var q := AffineImage(b, p);
    var c := Mul(a, b);
    assert AffineImage(c, p).x == a.m00 * q.x + a.m01 * q.y + a.m02 by {
      ComposeRow(a.m00, a.m01, a.m02, b, p, q);
    }
    assert AffineImage(c, p).y == a.m10 * q.x + a.m11 * q.y + a.m12 by {
      ComposeRow(a.m10, a.m11, a.m12, b, p, q);
    }
  }

  /** The product of affine matrices is affine. */
  lemma MulAffine(a: Mat3, b: Mat3)
    requires IsAffine(a) && IsAffine(b)
    ensures IsAffine(Mul(a, b))
  {
    LastRow(a.m22, b.m20, b.m21, b.m22, a.m20, a.m21, b.m00, b.m01, b.m02, b.m10, b.m11, b.m12);
  }

  lemma LastRow(a22: real, b20: real, b21: real, b22: real, a20: real, a21: real,
                b00: real, b01: real, b02: real, b10: real, b11: real, b12: real)
    requires a20 == 0.0 && a21 == 0.0 && a22 == 1.0 && b20 == 0.0 && b21 == 0.0 && b22 == 1.0
    ensures a20 * b00 + a21 * b10 + a22 * b20 == 0.0
    ensures a20 * b01 + a21 * b11 + a22 * b21 == 0.0
    ensures a20 * b02 + a21 * b12 + a22 * b22 == 1.0
  {
  }

  /** One row `(a0, a1, a2)` of a product with an affine `b`, applied to `p`,
      is that row applied to `q`, `b`'s image of `p`. */
  lemma ComposeRow(a0: real, a1: real, a2: real, b: Mat3, p: Vec2, q: Vec2)
    requires IsAffine(b)
    requires q == Vec2(b.m00 * p.x + b.m01 * p.y + b.m02, b.m10 * p.x + b.m11 * p.y + b.m12)
    ensures (a0 * b.m00 + a1 * b.m10 + a2 * b.m20) * p.x + (a0 * b.m01 + a1 * b.m11 + a2 * b.m21) * p.y
        + (a0 * b.m02 + a1 * b.m12 + a2 * b.m22)
      == a0 * q.x + a1 * q.y + a2
  {
  }

  /** Pivoting an affine map at `pivot` moves the pivot to the origin,
      applies the map and moves back. */
  lemma AroundPointConjugates(pivot: Vec2, m: Mat3, q: Vec2)
    requires IsAffine(m)
    ensures IsAffine(AroundPoint(pivot, m))
    ensures Apply(AroundPoint(pivot, m), q)
      == Apply(Translate(pivot.x, pivot.y), Apply(m, Apply(Translate(-pivot.x, -pivot.y), q)))
  {
    var back := Translate(-pivot.x, -pivot.y);
    ApplyMulAffine(m, back, q);
    ApplyMulAffine(Translate(pivot.x, pivot.y), Mul(m, back), q);
  }

  /** An affine map that fixes the origin, pivoted at `pivot`, fixes `pivot`. */
  lemma AroundPointFixesPivot(pivot: Vec2, m: Mat3)
    requires IsAffine(m) && m.m02 == 0.0 && m.m12 == 0.0
    ensures Apply(AroundPoint(pivot, m), pivot) == pivot
  {
    AroundPointConjugates(pivot, m, pivot);
    ApplyTranslate(-pivot.x, -pivot.y, pivot);
    ApplyAffine(m, Vec2(0.0, 0.0));
    ApplyTranslate(pivot.x, pivot.y, Vec2(0.0, 0.0));
  }

  /** Scaling and rotating about a point leave that point where it is. */
  lemma PivotStaysFixed(pivot: Vec2, sx: real, sy: real, angle: real, cosDeg: real -> real, sinDeg: real -> real)
    ensures Apply(AroundPoint(pivot, Scale(sx, sy)), pivot) == pivot
    ensures Apply(AroundPoint(pivot, RotateDegrees(angle, cosDeg, sinDeg)), pivot) == pivot
  {
    AroundPointFixesPivot(pivot, Scale(sx, sy));
    AroundPointFixesPivot(pivot, RotateDegrees(angle, cosDeg, sinDeg));
  }

  /** The squared Euclidean distance. */
  function Distance2(a: Vec2, b: Vec2): real {
    var dx := a.x - b.x;
    var dy := a.y - b.y;
    dx * dx + dy * dy
  }

  lemma Distance2Symmetric(a: Vec2, b: Vec2)
    ensures Distance2(a, b) == Distance2(b, a)
  {
  }

  // Point in polygon

  /** The vertex before `i`, cyclically: edge `i` runs from it to vertex `i`. */
  function Trail(i: nat, n: nat): (j: nat)
    requires i < n
    ensures j < n
  {
    if i == 0 then n - 1 else i - 1
  }

  /** The edge `(a, b)` straddles the horizontal line through `p` and meets
      it strictly to the right of `p`. */
  predicate Crosses(p: Vec2, a: Vec2, b: Vec2) {
    (a.y > p.y) != (b.y > p.y) && p.x < (b.x - a.x) * (p.y - a.y) / (b.y - a.y) + a.x
  }

  /** The number of edges ending at vertices `0 .. k-1` that `p`'s ray crosses. */
  function CrossCount(p: Vec2, polygon: seq<Vec2>, k: nat): (c: nat)
    requires k <= |polygon|
    ensures c <= k
  {
    if k == 0 then 0
    else
      var crossed := Crosses(p, polygon[k - 1], polygon[Trail(k - 1, |polygon|)]);
      CrossCount(p, polygon, k - 1) + (if crossed then 1 else 0)
  }

  /** Ray casting: inside when the ray crosses an odd number of edges. */
  predicate InPolygon(p: Vec2, polygon: seq<Vec2>) {
    |polygon| >= 3 && CrossCount(p, polygon, |polygon|) % 2 == 1
  }

  /** The ray-casting loop: it toggles `inside` at every crossed edge. */
  method PointInPolygon(point: Vec2, polygon: seq<Vec2>) returns (inside: bool)
    ensures inside <==> |polygon| >= 3 && CrossCount(point, polygon, |polygon|) % 2 == 1
  {
    var n := |polygon|;
    if n < 3 {
      return false;
    }
    inside := false;
    var j := n - 1;
    for i := 0 to n
      invariant j == if i == 0 then n - 1 else i - 1
      invariant inside <==> CrossCount(point, polygon, i) % 2 == 1
    {
      var intersect := Crosses(point, polygon[i], polygon[j]);
      if intersect {
        inside := !inside;
      }
      j := i;
    }
  }

  /** Fewer than three vertices enclose nothing. */
  lemma DegenerateOutside(p: Vec2, polygon: seq<Vec2>)
    requires |polygon| < 3
    ensures !InPolygon(p, polygon)
  {
  }

  /** The crossing test does not depend on the edge's direction. */
  lemma CrossesSymmetric(p: Vec2, a: Vec2, b: Vec2)
    ensures Crosses(p, a, b) == Crosses(p, b, a)
  {
    if (a.y > p.y) != (b.y > p.y) {
      CrossingAbscissa(p.y, a, b);
    }
  }

  /** Both end points give the same abscissa of the line through `a` and `b` at height `y`. */
  lemma CrossingAbscissa(y: real, a: Vec2, b: Vec2)
    requires a.y != b.y
    ensures (b.x - a.x) * (y - a.y) / (b.y - a.y) + a.x == (a.x - b.x) * (y - b.y) / (a.y - b.y) + b.x
  {
    LineAtHeight(y, a.x, a.y, b.x, b.y);
  }

  lemma LineAtHeight(y: real, ax: real, ay: real, bx: real, yb: real)
    requires ay != yb
    ensures (bx - ax) * (y - ay) / (yb - ay) + ax == (ax - bx) * (y - yb) / (ay - yb) + bx
  {
    var s := (y - ay) / (yb - ay);
    var u := (y - yb) / (ay - yb);
    FractionsSum(y, ay, yb);
    MulDiv(bx - ax, y - ay, yb - ay);
    MulDiv(ax - bx, y - yb, ay - yb);
    Complement(bx - ax, ax - bx, s, u);
  }

  /** The fractions of the way from either end to height `y` add up to one. */
  lemma FractionsSum(y: real, ay: real, yb: real)
    requires ay != yb
    ensures (y - ay) / (yb - ay) + (y - yb) / (ay - yb) == 1.0
  {
    Negate(y - yb, ay - yb);
    AddQuotients(y - ay, yb - y, yb - ay);
  }

  lemma Negate(a: real, b: real)
    requires b != 0.0
    ensures a / b == (-a) / (-b)
  {
  }

  lemma MulDiv(c: real, n: real, d: real)
    requires d != 0.0
    ensures c * n / d == c * (n / d)
  {
  }

  /** Splitting a length `c` at fraction `s` or, from the other side, at `u = 1 - s`. */
  lemma Complement(c: real, d: real, s: real, u: real)
    requires d == -c && s + u == 1.0
    ensures d * u == c * s - c
  {
    assert u == 1.0 - s;
  }

  /** A point to the right of (or level with) every vertex is outside: the
      crossing of a straddling edge lies between its end points' abscissas. */
  lemma RightOfAllOutside(p: Vec2, polygon: seq<Vec2>)
    requires forall i :: 0 <= i < |polygon| ==> polygon[i].x <= p.x
    ensures CrossCount(p, polygon, |polygon|) == 0
    ensures !InPolygon(p, polygon)
  {
    NoCrossingsBelow(p, polygon, |polygon|);
  }

  lemma {:induction false} NoCrossingsBelow(p: Vec2, polygon: seq<Vec2>, k: nat)
    requires k <= |polygon|
    requires forall i :: 0 <= i < |polygon| ==> polygon[i].x <= p.x
    ensures CrossCount(p, polygon, k) == 0
  {
    if k > 0 {
      NoCrossingsBelow(p, polygon, k - 1);
      var j := Trail(k - 1, |polygon|);
      NotCrossedFromLeft(p, polygon[k - 1], polygon[j]);
    }
  }

  /** An edge with both ends at or left of `p` is not crossed. */
  lemma NotCrossedFromLeft(p: Vec2, a: Vec2, b: Vec2)
    requires a.x <= p.x && b.x <= p.x
    ensures !Crosses(p, a, b)
  {
    if Crosses(p, a, b) {
      AbscissaBetween(p, a, b);
      assert false;
    }
  }

  lemma AbscissaBetween(p: Vec2, a: Vec2, b: Vec2)
    requires (a.y > p.y) != (b.y > p.y)
    requires a.x <= p.x && b.x <= p.x
    ensures (b.x - a.x) * (p.y - a.y) / (b.y - a.y) + a.x <= p.x
  {
    var part, whole := p.y - a.y, b.y - a.y;
    var s := part / whole;
    if b.y > p.y {
      assert whole > 0.0 && 0.0 <= part <= whole;
    } else {
      assert whole < 0.0 && whole <= part <= 0.0;
    }
    RatioInUnit(part, whole);
    ConvexBelow(a.x, b.x, s, p.x);
    assert (b.x - a.x) * part / whole == (b.x - a.x) * s by {
      MulDiv(b.x - a.x, part, whole);
    }
  }

  /** A point of the segment between two abscissas at most `bound` is at most `bound`. */
  lemma ConvexBelow(u: real, v: real, s: real, bound: real)
    requires 0.0 <= s <= 1.0 && u <= bound && v <= bound
    ensures u + (v - u) * s <= bound
  {
    ScaledAtMost(v - u, bound - u, s);
  }

  lemma ScaledAtMost(w: real, c: real, s: real)
    requires 0.0 <= s <= 1.0 && w <= c && c >= 0.0
    ensures w * s <= c
  {
    if w >= 0.0 {
      FractionAtMost(w, s);
    } else {
      NegativeScaled(w, s);
    }
  }

  lemma NegativeScaled(w: real, s: real)
    requires w < 0.0 && s >= 0.0
    ensures w * s <= 0.0
  {
  }

  lemma FractionAtMost(c: real, s: real)
    requires c >= 0.0 && 0.0 <= s <= 1.0
    ensures c * s <= c
  {
  }

  /** A part of the same sign as the whole and no larger is a fraction in `[0, 1]`. */
  lemma RatioInUnit(part: real, whole: real)
    requires (whole > 0.0 && 0.0 <= part <= whole) || (whole < 0.0 && whole <= part <= 0.0)
    ensures 0.0 <= part / whole <= 1.0
  {
    if whole > 0.0 {
      DivideMonotone(part, whole, whole);
      DivideMonotone(0.0, part, whole);
    } else {
      DivideMonotone(-part, -whole, -whole);
      DivideMonotone(0.0, -part, -whole);
      Negate(part, whole);
    }
  }

  // The crossing test as the source writes it

  /** The slack the source adds to the crossing denominator. */
  const RaySlack: real := 0.000000000001

  /** One edge of the source's ray cast: the denominator is `b.y - a.y` plus
      the slack, and a zero denominator raises. */
  function CrossingAsWritten(p: Vec2, a: Vec2, b: Vec2): Result<bool> {
    if (a.y > p.y) != (b.y > p.y) then
      var d := b.y - a.y + RaySlack;
      if d == 0.0 then Err(ZeroDivisionError)
      else Ok(p.x < (b.x - a.x) * (p.y - a.y) / d + a.x)
    else Ok(false)
  }

  /** The parity of crossings over edges `0 .. k-1`, as the source computes it.
      It fails only at an edge whose height difference cancels the slack. */
  function ParityAsWritten(p: Vec2, polygon: seq<Vec2>, k: nat): (r: Result<bool>)
    requires k <= |polygon|
    ensures r.Err? ==> r.error == ZeroDivisionError
    ensures r.Err? ==> exists i :: 0 <= i < k && polygon[Trail(i, |polygon|)].y - polygon[i].y + RaySlack == 0.0
  {
    if k == 0 then Ok(false)
    else
      match ParityAsWritten(p, polygon, k - 1)
      case Err(e) => Err(e)
      case Ok(inside) =>
        match CrossingAsWritten(p, polygon[k - 1], polygon[Trail(k - 1, |polygon|)])
        case Err(e) => Err(e)
        case Ok(c) => Ok(inside != c)
  }

  /** `point_in_polygon` as the source writes it: below three vertices the
      answer is false, and it fails only with `ZeroDivisionError`, at an
      edge whose height difference cancels the slack. */
  function PointInPolygonAsWritten(p: Vec2, polygon: seq<Vec2>): (r: Result<bool>)
    ensures |polygon| < 3 ==> r == Ok(false)
    ensures r.Err? ==> r.error == ZeroDivisionError
    ensures r.Err? ==> exists i :: 0 <= i < |polygon| && polygon[Trail(i, |polygon|)].y - polygon[i].y + RaySlack == 0.0
  {
    if |polygon| < 3 then Ok(false) else ParityAsWritten(p, polygon, |polygon|)
  }

  /** With an edge from height `RaySlack` down to height 0, the source divides
      by zero, while the exact crossing test answers. */
  lemma AsWrittenDividesByZero()
    ensures PointInPolygonAsWritten(Vec2(0.0, 0.0), [Vec2(1.0, RaySlack), Vec2(2.0, 5.0), Vec2(1.0, 0.0)])
      == Err(ZeroDivisionError)
    ensures !InPolygon(Vec2(0.0, 0.0), [Vec2(1.0, RaySlack), Vec2(2.0, 5.0), Vec2(1.0, 0.0)])
  {
    var poly := [Vec2(1.0, RaySlack), Vec2(2.0, 5.0), Vec2(1.0, 0.0)];
    var p := Vec2(0.0, 0.0);
    assert ParityAsWritten(p, poly, 1) == Err(ZeroDivisionError);
    assert ParityAsWritten(p, poly, 2) == Err(ZeroDivisionError);
    assert Crosses(p, poly[0], poly[2]);
    assert CrossCount(p, poly, 1) == 1;
    assert !Crosses(p, poly[1], poly[0]);
    assert CrossCount(p, poly, 2) == 1;
    assert Crosses(p, poly[2], poly[1]);
    assert CrossCount(p, poly, 3) == 2;
  }

  /** The slack also moves the crossing abscissa by the factor
      `(yj - yi) / (yj - yi + 1e-12)`. On an edge of height `2e-12` that
      factor is 2, so the source finds no crossing where the exact test
      finds one: the triangle below contains the point, but the source
      says it does not. */
  lemma AsWrittenShiftsCrossing()
    ensures PointInPolygonAsWritten(Vec2(4.0, RaySlack), [Vec2(0.0, 0.0), Vec2(10.0, 2.0 * RaySlack), Vec2(0.0, 2.0 * RaySlack)])
      == Ok(false)
    ensures InPolygon(Vec2(4.0, RaySlack), [Vec2(0.0, 0.0), Vec2(10.0, 2.0 * RaySlack), Vec2(0.0, 2.0 * RaySlack)])
  {
    var poly := [Vec2(0.0, 0.0), Vec2(10.0, 2.0 * RaySlack), Vec2(0.0, 2.0 * RaySlack)];
    var p := Vec2(4.0, RaySlack);
    assert CrossingAsWritten(p, poly[0], poly[2]) == Ok(false);
    assert ParityAsWritten(p, poly, 1) == Ok(false);
    assert CrossingAsWritten(p, poly[1], poly[0]) == Ok(false);
    assert ParityAsWritten(p, poly, 2) == Ok(false);
    assert !Crosses(p, poly[0], poly[2]);
    assert CrossCount(p, poly, 1) == 0;
    assert Crosses(p, poly[1], poly[0]);
    assert CrossCount(p, poly, 2) == 1;
    assert !Crosses(p, poly[2], poly[1]);
    assert CrossCount(p, poly, 3) == 1;
  }

  // Polygons

  /** Every point of `points` mapped by `m`. */
  function Mapped(m: Mat3, points: seq<Vec2>): (r: seq<Vec2>)
    ensures |r| == |points|
  {
    seq(|points|, i requires 0 <= i < |points| => Apply(m, points[i]))
  }

  /** Mapping by `b`, then by `a`, is mapping by the product `a · b`. */
  lemma MappedCompose(a: Mat3, b: Mat3, points: seq<Vec2>)
    requires IsAffine(a) && IsAffine(b)
    ensures Mapped(a, Mapped(b, points)) == Mapped(Mul(a, b), points)
  {
    forall i | 0 <= i < |points|
      ensures Mapped(a, Mapped(b, points))[i] == Mapped(Mul(a, b), points)[i]
    {
      ApplyMulAffine(a, b, points[i]);
    }
  }

  /** The coordinates of the vertices along `axis`. */
  function Coordinates(points: seq<Vec2>, axis: Axis): (r: seq<real>)
    ensures |r| == |points|
  {
    seq(|points|, i requires 0 <= i < |points| => Coordinate(points[i], axis))
  }

  /** The sum of `xs`, added from the front. */
  function Total(xs: seq<real>): real {
    if xs == [] then 0.0 else Total(xs[..|xs| - 1]) + xs[|xs| - 1]
  }

  /** The mean of the vertices, or the origin for no vertices. */
  function CentroidOf(points: seq<Vec2>): (c: Vec2)
    ensures points == [] ==> c == Vec2(0.0, 0.0)
    ensures points != [] ==> c.x * (|points| as real) == Total(Coordinates(points, X))
    ensures points != [] ==> c.y * (|points| as real) == Total(Coordinates(points, Y))
  {
    if points == [] then Vec2(0.0, 0.0)
    else
      var n := |points| as real;
      Vec2(Total(Coordinates(points, X)) / n, Total(Coordinates(points, Y)) / n)
  }

  /** Every vertex moved by `d`. */
  function Shifted(points: seq<Vec2>, d: Vec2): (r: seq<Vec2>)
    ensures |r| == |points|
  {
    seq(|points|, i requires 0 <= i < |points| => Vec2(points[i].x + d.x, points[i].y + d.y))
  }

  /** `e` added to every element of `xs`. */
  function Offset(xs: seq<real>, e: real): (r: seq<real>)
    ensures |r| == |xs|
  {
    seq(|xs|, i requires 0 <= i < |xs| => xs[i] + e)
  }

  /** Mapping by a translation moves every vertex by its offset. */
  lemma MappedTranslate(points: seq<Vec2>, dx: real, dy: real)
    ensures Mapped(Translate(dx, dy), points) == Shifted(points, Vec2(dx, dy))
  {
    forall i | 0 <= i < |points|
      ensures Mapped(Translate(dx, dy), points)[i] == Shifted(points, Vec2(dx, dy))[i]
    {
      ApplyTranslate(dx, dy, points[i]);
    }
  }

  /** Moving the vertices by `d` offsets each coordinate by `d`'s. */
  lemma ShiftedCoordinates(points: seq<Vec2>, d: Vec2, axis: Axis)
    ensures Coordinates(Shifted(points, d), axis) == Offset(Coordinates(points, axis), Coordinate(d, axis))
  {
  }

  /** Translating every vertex translates the centroid. */
  lemma CentroidTranslate(points: seq<Vec2>, dx: real, dy: real)
    requires points != []
    ensures CentroidOf(Mapped(Translate(dx, dy), points)) == Vec2(CentroidOf(points).x + dx, CentroidOf(points).y + dy)
  {
    var n, d := |points| as real, Vec2(dx, dy);
    var moved := Shifted(points, d);
    MappedTranslate(points, dx, dy);
    ShiftedCoordinates(points, d, X);
    ShiftedCoordinates(points, d, Y);
    var xs, ys := Coordinates(points, X), Coordinates(points, Y);
    TotalOffset(xs, dx, n, Total(Offset(xs, dx)), Total(xs));
    TotalOffset(ys, dy, n, Total(Offset(ys, dy)), Total(ys));
    DivideShift(Total(xs), n, dx);
    DivideShift(Total(ys), n, dy);
  }

  lemma DivideShift(s: real, n: real, d: real)
    requires n > 0.0
    ensures (s + n * d) / n == s / n + d
  {
  }

  /** Adding `e` to each of the `n` elements of `xs` adds `n * e` to the
      total `s0`, giving `s`. */
  lemma {:induction false} TotalOffset(xs: seq<real>, e: real, n: real, s: real, s0: real)
    requires n == |xs| as real
    requires s == Total(Offset(xs, e)) && s0 == Total(xs)
    ensures s == s0 + n * e
  {
    if xs != [] {
      var k := |xs| - 1;
      assert Offset(xs, e)[..k] == Offset(xs[..k], e);
      var s', s0' := Total(Offset(xs[..k], e)), Total(xs[..k]);
      TotalOffset(xs[..k], e, n - 1.0, s', s0');
      Accumulate(s, s', s0, s0', xs[k], e, n - 1.0, n);
    }
  }

  lemma Accumulate(s: real, s': real, s0: real, s0': real, v: real, e: real, m: real, n: real)
    requires s == s' + (v + e) && s0 == s0' + v && s' == s0' + m * e && n == m + 1.0
    ensures s == s0 + n * e
  {
  }

  /** Some vertex lies within squared distance `r2` of `p`, scanning from the back. */
  function AnyWithin(p: Vec2, points: seq<Vec2>, r2: real): (b: bool)
    ensures b <==> exists i :: 0 <= i < |points| && Distance2(p, points[i]) <= r2
  {
    if points == [] then false
    else
      var k := |points| - 1;
      assert forall i :: 0 <= i < k ==> points[..k][i] == points[i];
      Distance2(p, points[k]) <= r2 || AnyWithin(p, points[..k], r2)
  }

  predicate Within(p: Vec2, v: Vec2, radius: real) {
    Distance2(p, v) <= radius * radius
  }

  /** The sentinel the nearest-vertex search starts from. */
  const FarAway: real := 1000000000000000000000000000000.0

  /** A vertex the nearest-vertex search can pick: within the radius and
      closer than the sentinel. */
  predicate Candidate(d2: real, r2: real) {
    d2 <= r2 && d2 < FarAway
  }

  /** Every candidate before index `k` is at least `d2` away. */
  predicate NoCloser(p: Vec2, points: seq<Vec2>, r2: real, k: nat, d2: real) {
    forall i :: 0 <= i < k && i < |points| && Candidate(Distance2(p, points[i]), r2) ==> d2 <= Distance2(p, points[i])
  }

  /** Every candidate before index `k` is strictly more than `d2` away. */
  predicate AllFarther(p: Vec2, points: seq<Vec2>, r2: real, k: nat, d2: real) {
    forall i :: 0 <= i < k && i < |points| && Candidate(Distance2(p, points[i]), r2) ==> d2 < Distance2(p, points[i])
  }

  /** Vertex `k` is a candidate no other candidate beats, and the first such. */
  predicate Nearest(p: Vec2, points: seq<Vec2>, r2: real, k: nat) {
    && k < |points|
    && Candidate(Distance2(p, points[k]), r2)
    && NoCloser(p, points, r2, |points|, Distance2(p, points[k]))
    && AllFarther(p, points, r2, k, Distance2(p, points[k]))
  }

  const DefaultName: string := "Polygon"

  /** A polygon as the editor keeps it: its vertex list and its name. */
  class Polygon {
    var points: seq<Vec2>
    const name: string

    constructor (points: seq<Vec2>, name: string)
      ensures this.points == points && this.name == name
    {
      this.points := points;
      this.name := name;
    }

    /** A new polygon with every vertex mapped by `m`; this one is untouched. */
    method Transformed(m: Mat3) returns (q: Polygon)
      ensures fresh(q)
      ensures q.name == name && q.points == Mapped(m, points) && |q.points| == |points|
    {
      q := new Polygon(Mapped(m, points), name);
    }

    /** Maps every vertex by `m` in place. */
    method Apply(m: Mat3)
      modifies this
      ensures points == Mapped(m, old(points))
    {
      points := Mapped(m, points);
    }

    function Centroid(): (c: Vec2)
      reads this
      ensures c == CentroidOf(points)
    {
      CentroidOf(points)
    }

    /** Inside the polygon, or within `radius` of one of its vertices. */
    function HitTest(p: Vec2, radius: real): (hit: bool)
      reads this
      ensures hit <==> InPolygon(p, points) || exists i :: 0 <= i < |points| && Within(p, points[i], radius)
    {
      InPolygon(p, points) || AnyWithin(p, points, radius * radius)
    }

    /** The index of the vertex nearest to `p` among those within `radius`;
        on ties the first one wins. */
    method NearestVertex(p: Vec2, radius: real) returns (r: Option<nat>)
      ensures r.None? <==> forall i :: 0 <= i < |points| ==> !Candidate(Distance2(p, points[i]), radius * radius)
      ensures r.Some? ==> Nearest(p, points, radius * radius, r.value)
    {
      if points == [] {
        return None;
      }
      var r2 := radius * radius;
      var best: Option<nat> := None;
      var bestD2 := FarAway;
      for i := 0 to |points|
        invariant best.None? ==> bestD2 == FarAway
        invariant best.None? ==> forall k :: 0 <= k < i ==> !Candidate(Distance2(p, points[k]), r2)
        invariant best.Some? ==> best.value < i && bestD2 == Distance2(p, points[best.value]) && Candidate(bestD2, r2)
        invariant best.Some? ==> NoCloser(p, points, r2, i, bestD2)
        invariant best.Some? ==> AllFarther(p, points, r2, best.value, bestD2)
      {
        var d2 := Distance2(p, points[i]);
        if d2 <= r2 && d2 < bestD2 {
          best := Some(i);
          bestD2 := d2;
        }
      }
      r := best;
    }

    function ToDict(): (d: map<string, Value>)
      reads this
      ensures d == PolygonValue(points, name)
    {
      PolygonValue(points, name)
    }

    /** A polygon decoded from `data`; `show` is Python's `str` of a
        non-string value and `parse` its `float` of a string. */
    static method FromDict(data: map<string, Value>, show: Value -> string, parse: string -> Option<real>)
      returns (r: Result<Polygon>)
      ensures FromDictOf(data, show, parse).Err? ==> r == Err(FromDictOf(data, show, parse).error)
      ensures FromDictOf(data, show, parse).Ok? ==> r.Ok? && fresh(r.value)
      ensures FromDictOf(data, show, parse).Ok? ==> r.Ok? && r.value.points == FromDictOf(data, show, parse).value.0
      ensures FromDictOf(data, show, parse).Ok? ==> r.Ok? && r.value.name == FromDictOf(data, show, parse).value.1
    {
      match FromDictOf(data, show, parse)
      case Err(e) =>
        r := Err(e);
      case Ok(decoded) =>
        var q := new Polygon(decoded.0, decoded.1);
        r := Ok(q);
    }
  }

  // Serialisation

  /** The dictionary values the editor writes and reads back. */
  datatype Value = Number(n: real) | Text(s: string) | List(items: seq<Value>) | Object(fields: map<string, Value>)

  function PointValue(v: Vec2): Value {
    Object(map["x" := Number(v.x), "y" := Number(v.y)])
  }

  function PolygonValue(points: seq<Vec2>, name: string): map<string, Value> {
    map["type" := Text("polygon"), "name" := Text(name),
        "points" := List(seq(|points|, i requires 0 <= i < |points| => PointValue(points[i])))]
  }

  /** `p[key]`: a dictionary lookup, `KeyError` for a missing key and
      `TypeError` for anything that is not a dictionary. */
  function Field(p: Value, key: string): Result<Value> {
    match p
    case Object(fields) => if key in fields then Ok(fields[key]) else Err(KeyError)
    case _ => Err(TypeError)
  }

  /** `float(v)`: numbers as they are, strings through `parse`. */
  function ParseFloat(v: Value, parse: string -> Option<real>): Result<real> {
    match v
    case Number(n) => Ok(n)
    case Text(s) => if parse(s).Some? then Ok(parse(s).value) else Err(ValueError)
    case _ => Err(TypeError)
  }

  function DecodePoint(p: Value, parse: string -> Option<real>): Result<Vec2> {
    match Field(p, "x")
    case Err(e) => Err(e)
    case Ok(vx) =>
      match ParseFloat(vx, parse)
      case Err(e) => Err(e)
      case Ok(x) =>
        match Field(p, "y")
        case Err(e) => Err(e)
        case Ok(vy) =>
          match ParseFloat(vy, parse)
          case Err(e) => Err(e)
          case Ok(y) => Ok(Vec2(x, y))
  }

  /** The points of `items`, or the error of the first that does not decode. */
  function DecodePoints(items: seq<Value>, parse: string -> Option<real>): (r: Result<seq<Vec2>>)
    ensures r.Ok? ==> |r.value| == |items|
  {
    if items == [] then Ok([])
    else
      match DecodePoint(items[0], parse)
      case Err(e) => Err(e)
      case Ok(v) =>
        match DecodePoints(items[1..], parse)
        case Err(e) => Err(e)
        case Ok(rest) => Ok([v] + rest)
  }

  /** What `for p in v` visits: the items of a list; an empty string or an
      empty dictionary visits nothing; every other value fails with
      `TypeError` (a number is not iterable, and the characters or keys of a
      non-empty string or dictionary are strings that `p["x"]` rejects). */
  function Iterated(v: Value): Result<seq<Value>> {
    match v
    case List(items) => Ok(items)
    case Text(s) => if s == "" then Ok([]) else Err(TypeError)
    case Object(fields) => if fields == map[] then Ok([]) else Err(TypeError)
    case Number(_) => Err(TypeError)
  }

  /** The vertices and name `from_dict` builds: the points default to an
      empty list and the name to `"Polygon"`. */
  function FromDictOf(data: map<string, Value>, show: Value -> string, parse: string -> Option<real>)
    : Result<(seq<Vec2>, string)>
  {
    var source := if "points" in data then data["points"] else List([]);
    match Iterated(source)
    case Err(e) => Err(e)
    case Ok(items) =>
      match DecodePoints(items, parse)
      case Err(e) => Err(e)
      case Ok(points) =>
        var nameValue := if "name" in data then data["name"] else Text(DefaultName);
        var name := if nameValue.Text? then nameValue.s else show(nameValue);
        Ok((points, name))
  }

  /** Decoding what `to_dict` wrote gives back the vertices and the name. */
  lemma FromDictToDict(points: seq<Vec2>, name: string, show: Value -> string, parse: string -> Option<real>)
    ensures FromDictOf(PolygonValue(points, name), show, parse) == Ok((points, name))
  {
    var items := seq(|points|, i requires 0 <= i < |points| => PointValue(points[i]));
    DecodePointValues(points, parse);
    assert PolygonValue(points, name)["points"] == List(items);
  }

  lemma {:induction false} DecodePointValues(points: seq<Vec2>, parse: string -> Option<real>)
    ensures DecodePoints(seq(|points|, i requires 0 <= i < |points| => PointValue(points[i])), parse) == Ok(points)
  {
    var items := seq(|points|, i requires 0 <= i < |points| => PointValue(points[i]));
    if points != [] {
      assert items[1..] == seq(|points[1..]|, i requires 0 <= i < |points[1..]| => PointValue(points[1..][i]));
      DecodePointValues(points[1..], parse);
      assert DecodePoint(items[0], parse) == Ok(points[0]);
      assert [points[0]] + points[1..] == points;
    }
  }

  /** Missing entries take their defaults. */
  lemma FromDictDefaults(data: map<string, Value>, show: Value -> string, parse: string -> Option<real>)
    requires "points" !in data
    ensures FromDictOf(data, show, parse).Ok?
    ensures FromDictOf(data, show, parse).value.0 == []
    ensures "name" !in data ==> FromDictOf(data, show, parse).value.1 == DefaultName
  {
  }
}
