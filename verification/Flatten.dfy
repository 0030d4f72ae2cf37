/** Bézier flattening by de Casteljau subdivision (`facet_flatten_quad` and `facet_flatten_cubic`), over
    real arithmetic.  The callback is modelled by the list of points it receives. */
module Flatten {
  import opened Bits

  datatype Point = Point(x: real, y: real)

  function Mid(a: Point, b: Point): Point
  {
    Point((a.x + b.x) * 0.5, (a.y + b.y) * 0.5)
  }

  function Sq(x: real): (r: real)
    ensures r >= 0.0
  {
    x * x
  }

  function DistSq(a: Point, b: Point): real
  {
    Sq(a.x - b.x) + Sq(a.y - b.y)
  }

  function Lerp(a: real, b: real, t: real): real
  {
    (1.0 - t) * a + t * b
  }

  function LerpPoint(a: Point, b: Point, t: real): Point
  {
    Point(Lerp(a.x, b.x, t), Lerp(a.y, b.y, t))
  }

  // ---------------------------------------------------------------- one coordinate of a quadratic

  /** The curve by repeated interpolation: de Casteljau's definition. */
  function Quad(a: real, b: real, c: real, t: real): real
  {
    Lerp(Lerp(a, b, t), Lerp(b, c, t), t)
  }

  /** How far the control point is from the middle of the chord. */
  function Dev(a: real, b: real, c: real): real
  {
    b - (a + c) * 0.5
  }

  /** A split quarters the deviation, on both sides alike. */
  lemma DevQuarters(a: real, b: real, c: real)
    ensures var ab, bc := (a + b) * 0.5, (b + c) * 0.5; var m := (ab + bc) * 0.5;
            Dev(a, ab, m) == Dev(a, b, c) * 0.25 == Dev(m, bc, c)
  {
  }

  function Poly2(a: real, b: real, c: real, t: real): real
  {
    a + t * b + t * t * c
  }

  function Poly3(a: real, b: real, c: real, d: real, t: real): real
  {
    a + t * b + t * t * c + t * t * t * d
  }

  lemma QuadPolynomial(a: real, b: real, c: real, t: real)
    ensures Quad(a, b, c, t) == Poly2(a, 2.0 * (b - a), a - 2.0 * b + c, t)
  {
  }

  lemma LerpSwap(x: real, y: real, t: real)
    ensures Lerp(x, y, 1.0 - t) == Lerp(y, x, t)
  {
  }

  lemma QuadReversed(a: real, b: real, c: real, t: real)
    ensures Quad(c, b, a, 1.0 - t) == Quad(a, b, c, t)
  {
    hide Lerp;
    LerpSwap(c, b, t);
    LerpSwap(b, a, t);
    LerpSwap(Lerp(b, c, t), Lerp(a, b, t), t);
  }

  lemma Poly2Half(a: real, b: real, c: real, t: real)
    ensures Poly2(a, b, c, t * 0.5) == Poly2(a, b * 0.5, c * 0.25, t)
  {
  }

  lemma QuadLeft(a: real, b: real, c: real, t: real)
    ensures var ab, bc := (a + b) * 0.5, (b + c) * 0.5; Quad(a, ab, (ab + bc) * 0.5, t) == Quad(a, b, c, t * 0.5)
  {
    hide Quad, Poly2;
    var ab, bc := (a + b) * 0.5, (b + c) * 0.5;
    var m := (ab + bc) * 0.5;
    QuadPolynomial(a, ab, m, t);
    QuadPolynomial(a, b, c, t * 0.5);
    Poly2Half(a, 2.0 * (b - a), a - 2.0 * b + c, t);
    assert 2.0 * (ab - a) == 2.0 * (b - a) * 0.5;
    assert a - 2.0 * ab + m == (a - 2.0 * b + c) * 0.25;
  }

  /** The two halves trace the curve. */
  lemma QuadHalves(a: real, b: real, c: real, t: real)
    ensures var ab, bc := (a + b) * 0.5, (b + c) * 0.5; var m := (ab + bc) * 0.5;
            Quad(a, ab, m, t) == Quad(a, b, c, t * 0.5) && Quad(m, bc, c, t) == Quad(a, b, c, (1.0 + t) * 0.5)
  {
    hide Quad;
    var ab, bc := (a + b) * 0.5, (b + c) * 0.5;
    var m := (ab + bc) * 0.5;
    QuadLeft(a, b, c, t);
    QuadLeft(c, b, a, 1.0 - t);
    QuadReversed(m, bc, c, t);
    QuadReversed(a, b, c, (1.0 + t) * 0.5);
    assert 1.0 - (1.0 + t) * 0.5 == (1.0 - t) * 0.5;
  }

  /** The curve leaves the chord by twice t(1 - t) of the deviation. */
  lemma QuadOffChord(a: real, b: real, c: real, t: real)
    ensures Quad(a, b, c, t) - Lerp(a, c, t) == 2.0 * t * (1.0 - t) * Dev(a, b, c)
  {
  }

  // ---------------------------------------------------------------- flattening a quadratic

  /** A whole number that bounds twice the ratio of a flatness to its threshold. */
  function Excess(d: real, limit: real): nat
    requires limit > 0.0 && d >= 0.0
  {
    RatioNonneg(d, limit);
    (2.0 * d / limit).Floor
  }

  lemma RatioNonneg(d: real, limit: real)
    requires limit > 0.0 && d >= 0.0
    ensures 2.0 * d / limit >= 0.0
  {
  }

  /** Dividing a flatness above the threshold by four or more lowers the bound. */
  lemma ExcessDrops(d: real, d': real, limit: real)
    requires limit > 0.0 && d > limit && 0.0 <= d' <= d * 0.25
    ensures Excess(d', limit) < Excess(d, limit)
  {
    var r, r' := 2.0 * d / limit, 2.0 * d' / limit;
    assert r * limit == 2.0 * d && r' * limit == 2.0 * d';
    PositiveFactor(r - 2.0, limit);
    PositiveFactor(r * 0.25 - r', limit);
  }

  lemma PositiveFactor(x: real, y: real)
    requires y > 0.0
    ensures x * y > 0.0 ==> x > 0.0
    ensures x * y >= 0.0 ==> x >= 0.0
  {
  }

  function QuadFlatness(p0: Point, p1: Point, p2: Point): (d: real)
    ensures d >= 0.0
  {
    Sq(Dev(p0.x, p1.x, p2.x)) + Sq(Dev(p0.y, p1.y, p2.y))
  }

  /** The flatness of a quadratic is the squared distance of the control point from the middle of the chord. */
  lemma QuadFlatnessIs(p0: Point, p1: Point, p2: Point)
    ensures QuadFlatness(p0, p1, p2) == DistSq(p1, LerpPoint(p0, p2, 0.5))
  {
    assert Lerp(p0.x, p2.x, 0.5) == (p0.x + p2.x) * 0.5 && Lerp(p0.y, p2.y, 0.5) == (p0.y + p2.y) * 0.5;
  }

  lemma SqQuarter(x: real)
    ensures Sq(x * 0.25) == Sq(x) * 0.0625
  {
  }

  /** The half curves have a sixteenth of the flatness. */
  lemma QuadFlatnessDrops(p0: Point, p1: Point, p2: Point)
    ensures var p01, p12 := Mid(p0, p1), Mid(p1, p2); var m := Mid(p01, p12);
            QuadFlatness(p0, p01, m) == QuadFlatness(p0, p1, p2) * 0.0625 == QuadFlatness(m, p12, p2)
  {
    DevQuarters(p0.x, p1.x, p2.x);
    DevQuarters(p0.y, p1.y, p2.y);
    SqQuarter(Dev(p0.x, p1.x, p2.x));
    SqQuarter(Dev(p0.y, p1.y, p2.y));
  }

  /** `facet_flatten_quad`; `limit` is the square of the tolerance, which every call compares with. */
  function FlattenQuad(p0: Point, p1: Point, p2: Point, limit: real): (r: seq<Point>)
    requires limit > 0.0
    ensures |r| >= 1 && r[|r| - 1] == p2
    decreases Excess(QuadFlatness(p0, p1, p2), limit)
  {
    if QuadFlatness(p0, p1, p2) <= limit then [p2]
    else
      var p01, p12 := Mid(p0, p1), Mid(p1, p2);
      var m := Mid(p01, p12);
      QuadFlatnessDrops(p0, p1, p2);
      ExcessDrops(QuadFlatness(p0, p1, p2), QuadFlatness(p0, p01, m), limit);
      FlattenQuad(p0, p01, m, limit) + FlattenQuad(m, p12, p2, limit)
  }

  /** How deep the subdivision goes: it depends on the flatness alone. */
  function Depth(d: real, limit: real): nat
    requires limit > 0.0 && d >= 0.0
    decreases Excess(d, limit)
  {
    if d <= limit then 0
    else
      ExcessDrops(d, d * 0.0625, limit);
      1 + Depth(d * 0.0625, limit)
  }

  function QuadPoint(p0: Point, p1: Point, p2: Point, t: real): Point
  {
    Point(Quad(p0.x, p1.x, p2.x, t), Quad(p0.y, p1.y, p2.y, t))
  }

  lemma QuadPointHalves(p0: Point, p1: Point, p2: Point, t: real)
    ensures var p01, p12 := Mid(p0, p1), Mid(p1, p2); var m := Mid(p01, p12);
            QuadPoint(p0, p01, m, t) == QuadPoint(p0, p1, p2, t * 0.5) &&
            QuadPoint(m, p12, p2, t) == QuadPoint(p0, p1, p2, (1.0 + t) * 0.5)
  {
    QuadHalves(p0.x, p1.x, p2.x, t);
    QuadHalves(p0.y, p1.y, p2.y, t);
  }

  // ---------------------------------------------------------------- which points are emitted

  /** i / 2^k */
  function Dyadic(i: nat, k: nat): real
  {
    i as real / Pow2(k) as real
  }

  lemma DyadicHalves(i: nat, k: nat)
    ensures Dyadic(i, k) * 0.5 == Dyadic(i, k + 1)
    ensures (1.0 + Dyadic(i, k)) * 0.5 == Dyadic(Pow2(k) + i, k + 1)
  {
    var x, h := i as real, Pow2(k) as real;
    var d := x / h;
    assert d * h == x;
    var e, f := x / (2.0 * h), (h + x) / (2.0 * h);
    assert e * (2.0 * h) == x && f * (2.0 * h) == h + x;
    SameProduct(d * 0.5, e, 2.0 * h);
    SameProduct((1.0 + d) * 0.5, f, 2.0 * h);
  }

  lemma SameProduct(x: real, y: real, z: real)
    requires z > 0.0 && x * z == y * z
    ensures x == y
  {
    PositiveFactor(x - y, z);
    PositiveFactor(y - x, z);
  }

  /** All leaves lie at one depth k, and the emitted points are the curve at 1/2^k, 2/2^k, ..., 1. */
  lemma {:induction false} QuadSamples(p0: Point, p1: Point, p2: Point, limit: real, i: nat)
    requires limit > 0.0
    ensures var r, k := FlattenQuad(p0, p1, p2, limit), Depth(QuadFlatness(p0, p1, p2), limit);
            |r| == Pow2(k) && (i < Pow2(k) ==> r[i] == QuadPoint(p0, p1, p2, Dyadic(i + 1, k)))
    decreases Excess(QuadFlatness(p0, p1, p2), limit)
  {
    hide Dyadic, QuadPoint, Mid, QuadFlatness, Excess;
    var d := QuadFlatness(p0, p1, p2);
    if d <= limit {
      QuadEnd(p0, p1, p2);
    } else {
      var p01, p12 := Mid(p0, p1), Mid(p1, p2);
      var m := Mid(p01, p12);
      QuadFlatnessDrops(p0, p1, p2);
      ExcessDrops(d, d * 0.0625, limit);
      var k := Depth(d * 0.0625, limit);
      var h := Pow2(k);
      QuadSamples(p0, p01, m, limit, if i < h then i else 0);
      QuadSamples(m, p12, p2, limit, if i < h then 0 else i - h);
      var j := if i < h then i + 1 else i - h + 1;
      DyadicHalves(j, k);
      QuadPointHalves(p0, p1, p2, Dyadic(j, k));
    }
  }

  lemma QuadEnd(p0: Point, p1: Point, p2: Point)
    ensures QuadPoint(p0, p1, p2, Dyadic(1, 0)) == p2
  {
  }

  // ---------------------------------------------------------------- the curve stays near the polyline

  /** The end of segment i of a polyline that starts at p0, and its beginning. */
  function SegmentStart(p0: Point, r: seq<Point>, i: nat): Point
    requires i < |r|
  {
    if i == 0 then p0 else r[i - 1]
  }

  /** q is within the tolerance of some point of the polyline p0, r[0], r[1], .... */
  ghost predicate Near(q: Point, p0: Point, r: seq<Point>, limit: real)
  {
    exists i: nat, u: real :: i < |r| && 0.0 <= u <= 1.0 && DistSq(q, LerpPoint(SegmentStart(p0, r, i), r[i], u)) <= limit
  }

  lemma NearConcat(q: Point, p0: Point, a: seq<Point>, b: seq<Point>, limit: real)
    requires |a| >= 1
    ensures Near(q, p0, a, limit) || Near(q, a[|a| - 1], b, limit) ==> Near(q, p0, a + b, limit)
  {
    if Near(q, p0, a, limit) {
      var i: nat, u: real :| i < |a| && 0.0 <= u <= 1.0 && DistSq(q, LerpPoint(SegmentStart(p0, a, i), a[i], u)) <= limit;
      assert SegmentStart(p0, a + b, i) == SegmentStart(p0, a, i) && (a + b)[i] == a[i];
    } else if Near(q, a[|a| - 1], b, limit) {
      var i: nat, u: real :| i < |b| && 0.0 <= u <= 1.0 && DistSq(q, LerpPoint(SegmentStart(a[|a| - 1], b, i), b[i], u)) <= limit;
      assert SegmentStart(p0, a + b, |a| + i) == SegmentStart(a[|a| - 1], b, i) && (a + b)[|a| + i] == b[i];
    }
  }

  /** Scaling by at most 1 does not enlarge a square. */
  lemma ScaledSquare(e: real, w: real, s: real)
    requires 0.0 <= w <= 1.0 && e == w * s
    ensures Sq(e) <= Sq(s)
  {
    PositiveOrZero(w, 1.0 - w);
    Shrink(w * w, s * s);
    assert (w * s) * (w * s) == (w * w) * (s * s);
  }

  lemma Shrink(v: real, q: real)
    requires 0.0 <= v <= 1.0 && q >= 0.0
    ensures v * q <= q
  {
    PositiveOrZero(1.0 - v, q);
  }

  lemma PositiveOrZero(x: real, y: real)
    requires x >= 0.0 && y >= 0.0
    ensures x * y >= 0.0
  {
  }

  lemma WeightRange(t: real)
    requires 0.0 <= t <= 1.0
    ensures 0.0 <= 2.0 * t * (1.0 - t) <= 1.0
    ensures 0.0 <= t * (1.0 - t) <= 0.25
  {
    PositiveOrZero(t, 1.0 - t);
    var s := t - 0.5;
    assert s * s >= 0.0;
    assert t * (1.0 - t) == 0.25 - s * s;
  }

  /** A flat curve is within the tolerance of its chord. */
  lemma FlatQuad(p0: Point, p1: Point, p2: Point, t: real)
    requires 0.0 <= t <= 1.0
    ensures DistSq(QuadPoint(p0, p1, p2, t), LerpPoint(p0, p2, t)) <= QuadFlatness(p0, p1, p2)
  {
    hide Quad, Lerp, Dev, Sq;
    QuadOffChord(p0.x, p1.x, p2.x, t);
    QuadOffChord(p0.y, p1.y, p2.y, t);
    WeightRange(t);
    var w := 2.0 * t * (1.0 - t);
    ScaledSquare(Quad(p0.x, p1.x, p2.x, t) - Lerp(p0.x, p2.x, t), w, Dev(p0.x, p1.x, p2.x));
    ScaledSquare(Quad(p0.y, p1.y, p2.y, t) - Lerp(p0.y, p2.y, t), w, Dev(p0.y, p1.y, p2.y));
  }

  /** Every point of the curve is within the tolerance of the flattened polyline. */
  lemma {:induction false} QuadWithinTolerance(p0: Point, p1: Point, p2: Point, limit: real, t: real)
    requires limit > 0.0 && 0.0 <= t <= 1.0
    ensures Near(QuadPoint(p0, p1, p2, t), p0, FlattenQuad(p0, p1, p2, limit), limit)
    decreases Excess(QuadFlatness(p0, p1, p2), limit)
  {
    var d := QuadFlatness(p0, p1, p2);
    var r := FlattenQuad(p0, p1, p2, limit);
    if d <= limit {
      FlatQuad(p0, p1, p2, t);
      assert SegmentStart(p0, r, 0) == p0 && r[0] == p2;
    } else {
      var p01, p12 := Mid(p0, p1), Mid(p1, p2);
      var m := Mid(p01, p12);
      QuadFlatnessDrops(p0, p1, p2);
      ExcessDrops(d, d * 0.0625, limit);
      var a, b := FlattenQuad(p0, p01, m, limit), FlattenQuad(m, p12, p2, limit);
      var q := QuadPoint(p0, p1, p2, t);
      hide QuadPoint, Mid, QuadFlatness, Near;
      NearConcat(q, p0, a, b, limit);
      if t <= 0.5 {
        QuadPointHalves(p0, p1, p2, 2.0 * t);
        QuadWithinTolerance(p0, p01, m, limit, 2.0 * t);
      } else {
        QuadPointHalves(p0, p1, p2, 2.0 * t - 1.0);
        QuadWithinTolerance(m, p12, p2, limit, 2.0 * t - 1.0);
      }
    }
  }

  // ---------------------------------------------------------------- one coordinate of a cubic

  function Cubic(a: real, b: real, c: real, d: real, t: real): real
  {
    Lerp(Quad(a, b, c, t), Quad(b, c, d, t), t)
  }

  /** The two flatness vectors. */
  function U(a: real, b: real, c: real, d: real): real
  {
    3.0 * b - 2.0 * a - d
  }

  function V(a: real, b: real, c: real, d: real): real
  {
    3.0 * c - a - 2.0 * d
  }

  function MaxSq(u: real, v: real): (r: real)
    ensures r >= 0.0
  {
    if Sq(u) > Sq(v) then Sq(u) else Sq(v)
  }

  function Abs(x: real): real
  {
    if x < 0.0 then -x else x
  }

  /** Squares are ordered as sizes. */
  lemma SqOrder(x: real, m: real)
    requires -m <= x <= m
    ensures Sq(x) <= Sq(m)
  {
    PositiveOrZero(m - x, m + x);
    assert (m - x) * (m + x) == m * m - x * x;
  }

  /** The larger square is the square of the larger size. */
  lemma MaxSqIs(u: real, v: real) returns (m: real)
    ensures m >= 0.0 && -m <= u <= m && -m <= v <= m && Sq(m) == MaxSq(u, v) && (m == u || m == -u || m == v || m == -v)
  {
    m := if Abs(u) > Abs(v) then Abs(u) else Abs(v);
    SqOrder(u, m);
    SqOrder(v, m);
    assert Sq(-u) == Sq(u) && Sq(-v) == Sq(v);
  }

  /** What a split does to the flatness vectors. */
  lemma UVHalves(a: real, b: real, c: real, d: real)
    ensures var ab, bc, cd := (a + b) * 0.5, (b + c) * 0.5, (c + d) * 0.5;
            var abc, bcd := (ab + bc) * 0.5, (bc + cd) * 0.5; var m := (abc + bcd) * 0.5;
            var u, v := U(a, b, c, d), V(a, b, c, d);
            U(a, ab, abc, m) == (3.0 * u - v) * 0.125 && V(a, ab, abc, m) == u * 0.25 &&
            U(m, bcd, cd, d) == v * 0.25 && V(m, bcd, cd, d) == (3.0 * v - u) * 0.125
  {
  }

  /** The larger flatness vector at least halves, so its square drops to a quarter or less. */
  lemma MaxSqDrops(u: real, v: real)
    ensures MaxSq((3.0 * u - v) * 0.125, u * 0.25) <= MaxSq(u, v) * 0.25
    ensures MaxSq(v * 0.25, (3.0 * v - u) * 0.125) <= MaxSq(u, v) * 0.25
  {
    var m := MaxSqIs(u, v);
    var h := m * 0.5;
    SqOrder((3.0 * u - v) * 0.125, h);
    SqOrder(u * 0.25, h);
    SqOrder((3.0 * v - u) * 0.125, h);
    SqOrder(v * 0.25, h);
    assert Sq(h) == Sq(m) * 0.25;
  }

  /** The curve as a polynomial in t. */
  lemma CubicPolynomial(a: real, b: real, c: real, d: real, t: real)
    ensures Cubic(a, b, c, d, t) == Poly3(a, 3.0 * (b - a), 3.0 * (a - 2.0 * b + c), d - 3.0 * c + 3.0 * b - a, t)
  {
    hide Quad, Lerp, Poly2, Poly3;
    QuadPolynomial(a, b, c, t);
    QuadPolynomial(b, c, d, t);
    LerpPolynomial(a, 2.0 * (b - a), a - 2.0 * b + c, b, 2.0 * (c - b), b - 2.0 * c + d, t);
    assert 2.0 * (b - a) + b - a == 3.0 * (b - a);
    assert a - 2.0 * b + c + 2.0 * (c - b) - 2.0 * (b - a) == 3.0 * (a - 2.0 * b + c);
    assert b - 2.0 * c + d - (a - 2.0 * b + c) == d - 3.0 * c + 3.0 * b - a;
  }

  /** Interpolating between two quadratic polynomials. */
  lemma LerpPolynomial(a: real, b: real, c: real, a': real, b': real, c': real, t: real)
    ensures Lerp(Poly2(a, b, c, t), Poly2(a', b', c', t), t) == Poly3(a, b + a' - a, c + b' - b, c' - c, t)
  {
  }

  lemma Poly3Half(a: real, b: real, c: real, d: real, t: real)
    ensures Poly3(a, b, c, d, t * 0.5) == Poly3(a, b * 0.5, c * 0.25, d * 0.125, t)
  {
  }

  lemma CubicLeft(a: real, b: real, c: real, d: real, t: real)
    ensures var ab, bc, cd := (a + b) * 0.5, (b + c) * 0.5, (c + d) * 0.5;
            var abc, bcd := (ab + bc) * 0.5, (bc + cd) * 0.5; var m := (abc + bcd) * 0.5;
            Cubic(a, ab, abc, m, t) == Cubic(a, b, c, d, t * 0.5)
  {
    hide Cubic, Poly3;
    var ab, bc, cd := (a + b) * 0.5, (b + c) * 0.5, (c + d) * 0.5;
    var abc, bcd := (ab + bc) * 0.5, (bc + cd) * 0.5;
    var m := (abc + bcd) * 0.5;
    CubicPolynomial(a, ab, abc, m, t);
    CubicPolynomial(a, b, c, d, t * 0.5);
    Poly3Half(a, 3.0 * (b - a), 3.0 * (a - 2.0 * b + c), d - 3.0 * c + 3.0 * b - a, t);
    assert 3.0 * (ab - a) == 3.0 * (b - a) * 0.5;
    assert 3.0 * (a - 2.0 * ab + abc) == 3.0 * (a - 2.0 * b + c) * 0.25;
    assert m - 3.0 * abc + 3.0 * ab - a == (d - 3.0 * c + 3.0 * b - a) * 0.125;
  }

  /** Running the curve backwards. */
  lemma CubicReversed(a: real, b: real, c: real, d: real, t: real)
    ensures Cubic(d, c, b, a, 1.0 - t) == Cubic(a, b, c, d, t)
  {
    hide Lerp, Quad;
    QuadReversed(b, c, d, t);
    QuadReversed(a, b, c, t);
    LerpSwap(Quad(b, c, d, t), Quad(a, b, c, t), t);
  }

  /** The two halves trace the curve. */
  lemma CubicHalves(a: real, b: real, c: real, d: real, t: real)
    ensures var ab, bc, cd := (a + b) * 0.5, (b + c) * 0.5, (c + d) * 0.5;
            var abc, bcd := (ab + bc) * 0.5, (bc + cd) * 0.5; var m := (abc + bcd) * 0.5;
            Cubic(a, ab, abc, m, t) == Cubic(a, b, c, d, t * 0.5) && Cubic(m, bcd, cd, d, t) == Cubic(a, b, c, d, (1.0 + t) * 0.5)
  {
    hide Cubic;
    var ab, bc, cd := (a + b) * 0.5, (b + c) * 0.5, (c + d) * 0.5;
    var abc, bcd := (ab + bc) * 0.5, (bc + cd) * 0.5;
    var m := (abc + bcd) * 0.5;
    CubicLeft(a, b, c, d, t);
    CubicLeft(d, c, b, a, 1.0 - t);
    CubicReversed(m, bcd, cd, d, t);
    CubicReversed(a, b, c, d, (1.0 + t) * 0.5);
    assert 1.0 - (1.0 + t) * 0.5 == (1.0 - t) * 0.5;
  }

  lemma CubicOffChord(a: real, b: real, c: real, d: real, t: real)
    ensures Cubic(a, b, c, d, t) - Lerp(a, d, t) == t * (1.0 - t) * Lerp(U(a, b, c, d), V(a, b, c, d), t)
  {
    hide Cubic;
    CubicPolynomial(a, b, c, d, t);
    BumpPolynomial(U(a, b, c, d), V(a, b, c, d), t);
  }

  lemma BumpPolynomial(u: real, v: real, t: real)
    ensures t * (1.0 - t) * Lerp(u, v, t) == t * u + t * t * (v - 2.0 * u) - t * t * t * (v - u)
  {
  }

  // ---------------------------------------------------------------- flattening a cubic

  function CubicFlatness(p0: Point, p1: Point, p2: Point, p3: Point): (d: real)
    ensures d >= 0.0
  {
    MaxSq(U(p0.x, p1.x, p2.x, p3.x), V(p0.x, p1.x, p2.x, p3.x)) + MaxSq(U(p0.y, p1.y, p2.y, p3.y), V(p0.y, p1.y, p2.y, p3.y))
  }

  /** The flatness of a cubic: coordinate by coordinate the larger of the two flatness vectors, squared and added. */
  lemma CubicFlatnessIs(p0: Point, p1: Point, p2: Point, p3: Point) returns (x: real, y: real)
    ensures x >= 0.0 && y >= 0.0 && CubicFlatness(p0, p1, p2, p3) == x * x + y * y
    ensures var u, v := 3.0 * p1.x - 2.0 * p0.x - p3.x, 3.0 * p2.x - p0.x - 2.0 * p3.x;
            -x <= u <= x && -x <= v <= x && (x == u || x == -u || x == v || x == -v)
    ensures var u, v := 3.0 * p1.y - 2.0 * p0.y - p3.y, 3.0 * p2.y - p0.y - 2.0 * p3.y;
            -y <= u <= y && -y <= v <= y && (y == u || y == -u || y == v || y == -v)
  {
    x := MaxSqIs(U(p0.x, p1.x, p2.x, p3.x), V(p0.x, p1.x, p2.x, p3.x));
    y := MaxSqIs(U(p0.y, p1.y, p2.y, p3.y), V(p0.y, p1.y, p2.y, p3.y));
  }

  /** Both half curves have at most a quarter of the flatness. */
  lemma CubicFlatnessDrops(p0: Point, p1: Point, p2: Point, p3: Point)
    ensures var p01, p12, p23 := Mid(p0, p1), Mid(p1, p2), Mid(p2, p3);
            var p012, p123 := Mid(p01, p12), Mid(p12, p23); var m := Mid(p012, p123);
            CubicFlatness(p0, p01, p012, m) <= CubicFlatness(p0, p1, p2, p3) * 0.25 &&
            CubicFlatness(m, p123, p23, p3) <= CubicFlatness(p0, p1, p2, p3) * 0.25
  {
    hide U, V, MaxSq;
    UVHalves(p0.x, p1.x, p2.x, p3.x);
    UVHalves(p0.y, p1.y, p2.y, p3.y);
    MaxSqDrops(U(p0.x, p1.x, p2.x, p3.x), V(p0.x, p1.x, p2.x, p3.x));
    MaxSqDrops(U(p0.y, p1.y, p2.y, p3.y), V(p0.y, p1.y, p2.y, p3.y));
  }

  /** `facet_flatten_cubic`; `limit` is sixteen times the square of the tolerance. */
  function FlattenCubic(p0: Point, p1: Point, p2: Point, p3: Point, limit: real): (r: seq<Point>)
    requires limit > 0.0
    ensures |r| >= 1 && r[|r| - 1] == p3
    decreases Excess(CubicFlatness(p0, p1, p2, p3), limit)
  {
    var d := CubicFlatness(p0, p1, p2, p3);
    if d <= limit then [p3]
    else
      var p01, p12, p23 := Mid(p0, p1), Mid(p1, p2), Mid(p2, p3);
      var p012, p123 := Mid(p01, p12), Mid(p12, p23);
      var m := Mid(p012, p123);
      CubicFlatnessDrops(p0, p1, p2, p3);
      ExcessDrops(d, CubicFlatness(p0, p01, p012, m), limit);
      ExcessDrops(d, CubicFlatness(m, p123, p23, p3), limit);
      FlattenCubic(p0, p01, p012, m, limit) + FlattenCubic(m, p123, p23, p3, limit)
  }

  function CubicPoint(p0: Point, p1: Point, p2: Point, p3: Point, t: real): Point
  {
    Point(Cubic(p0.x, p1.x, p2.x, p3.x, t), Cubic(p0.y, p1.y, p2.y, p3.y, t))
  }

  lemma CubicPointHalves(p0: Point, p1: Point, p2: Point, p3: Point, t: real)
    ensures var p01, p12, p23 := Mid(p0, p1), Mid(p1, p2), Mid(p2, p3);
            var p012, p123 := Mid(p01, p12), Mid(p12, p23); var m := Mid(p012, p123);
            CubicPoint(p0, p01, p012, m, t) == CubicPoint(p0, p1, p2, p3, t * 0.5) &&
            CubicPoint(m, p123, p23, p3, t) == CubicPoint(p0, p1, p2, p3, (1.0 + t) * 0.5)
  {
    hide Cubic;
    CubicHalves(p0.x, p1.x, p2.x, p3.x, t);
    CubicHalves(p0.y, p1.y, p2.y, p3.y, t);
  }

  /** Interpolation stays within the larger size. */
  lemma LerpSq(u: real, v: real, t: real)
    requires 0.0 <= t <= 1.0
    ensures Sq(Lerp(u, v, t)) <= MaxSq(u, v)
  {
    var m := MaxSqIs(u, v);
    PositiveOrZero(1.0 - t, m - u);
    PositiveOrZero(1.0 - t, m + u);
    PositiveOrZero(t, m - v);
    PositiveOrZero(t, m + v);
    SqOrder(Lerp(u, v, t), m);
  }

  /** An offset of t(1 - t) times an interpolation squares to a sixteenth of the larger square. */
  lemma OffsetSq(e: real, t: real, u: real, v: real)
    requires 0.0 <= t <= 1.0 && e == t * (1.0 - t) * Lerp(u, v, t)
    ensures Sq(e) <= MaxSq(u, v) * 0.0625
  {
    hide Lerp, MaxSq, Sq;
    WeightRange(t);
    LerpSq(u, v, t);
    QuarterSq(e, t * (1.0 - t), Lerp(u, v, t), MaxSq(u, v));
  }

  lemma QuarterSq(e: real, w: real, g: real, q: real)
    requires 0.0 <= w <= 0.25 && e == w * g && Sq(g) <= q
    ensures Sq(e) <= q * 0.0625
  {
    ScaledSquare(e * 4.0, w * 4.0, g);
    assert Sq(e * 4.0) == Sq(e) * 16.0;
  }

  lemma FlatCubic(p0: Point, p1: Point, p2: Point, p3: Point, t: real)
    requires 0.0 <= t <= 1.0
    ensures DistSq(CubicPoint(p0, p1, p2, p3, t), LerpPoint(p0, p3, t)) <= CubicFlatness(p0, p1, p2, p3) * 0.0625
  {
    hide Cubic, Lerp, U, V, MaxSq, Sq;
    CubicOffChord(p0.x, p1.x, p2.x, p3.x, t);
    CubicOffChord(p0.y, p1.y, p2.y, p3.y, t);
    OffsetSq(Cubic(p0.x, p1.x, p2.x, p3.x, t) - Lerp(p0.x, p3.x, t), t, U(p0.x, p1.x, p2.x, p3.x), V(p0.x, p1.x, p2.x, p3.x));
    OffsetSq(Cubic(p0.y, p1.y, p2.y, p3.y, t) - Lerp(p0.y, p3.y, t), t, U(p0.y, p1.y, p2.y, p3.y), V(p0.y, p1.y, p2.y, p3.y));
  }

  /** Every point of the curve is within the tolerance of the flattened polyline. */
  lemma {:induction false} CubicWithinTolerance(p0: Point, p1: Point, p2: Point, p3: Point, limit: real, t: real)
    requires limit > 0.0 && 0.0 <= t <= 1.0
    ensures Near(CubicPoint(p0, p1, p2, p3, t), p0, FlattenCubic(p0, p1, p2, p3, limit), limit * 0.0625)
    decreases Excess(CubicFlatness(p0, p1, p2, p3), limit)
  {
    hide CubicPoint, Mid, CubicFlatness, Excess, DistSq, LerpPoint;
    var d := CubicFlatness(p0, p1, p2, p3);
    var r := FlattenCubic(p0, p1, p2, p3, limit);
    if d <= limit {
      FlatCubic(p0, p1, p2, p3, t);
      assert SegmentStart(p0, r, 0) == p0 && r[0] == p3;
    } else {
      var p01, p12, p23 := Mid(p0, p1), Mid(p1, p2), Mid(p2, p3);
      var p012, p123 := Mid(p01, p12), Mid(p12, p23);
      var m := Mid(p012, p123);
      CubicFlatnessDrops(p0, p1, p2, p3);
      ExcessDrops(d, CubicFlatness(p0, p01, p012, m), limit);
      ExcessDrops(d, CubicFlatness(m, p123, p23, p3), limit);
      var a, b := FlattenCubic(p0, p01, p012, m, limit), FlattenCubic(m, p123, p23, p3, limit);
      NearConcat(CubicPoint(p0, p1, p2, p3, t), p0, a, b, limit * 0.0625);
      if t <= 0.5 {
        CubicPointHalves(p0, p1, p2, p3, 2.0 * t);
        CubicWithinTolerance(p0, p01, p012, m, limit, 2.0 * t);
      } else {
        CubicPointHalves(p0, p1, p2, p3, 2.0 * t - 1.0);
        CubicWithinTolerance(m, p123, p23, p3, limit, 2.0 * t - 1.0);
      }
    }
  }
}
