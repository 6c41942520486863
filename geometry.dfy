/** Segment intersection in parametric form, after `calculateIntersection`
    in src/utils.js. All coordinates are exact reals. */
module Geometry {
  import opened RealArith

  /** A location on the drawing surface. */
  datatype Point = Point(x: real, y: real)

  /** A point, or no point (the source's `null`). */
  datatype Option<T> = None | Some(value: T)

  /** The point `a + k * (b - a)` on the line through `a` and `b`. */
  function Lerp(a: Point, b: Point, k: real): Point {
    Point(a.x + k * (b.x - a.x), a.y + k * (b.y - a.y))
  }

  /** The closed parameter range of a segment, endpoints included. */
  predicate InUnit(k: real) {
    0.0 <= k <= 1.0
  }

  /** Cross product of the directions `p2 - p1` and `p4 - p3`:
      zero exactly when the two segments are parallel or collinear. */
  function Determinant(p1: Point, p2: Point, p3: Point, p4: Point): real {
    (p2.x - p1.x) * (p4.y - p3.y) - (p4.x - p3.x) * (p2.y - p1.y)
  }

  /** Parameter of the crossing along the second segment, from `p3` to `p4`. */
  function ParamS(p1: Point, p2: Point, p3: Point, p4: Point): real
    requires Determinant(p1, p2, p3, p4) != 0.0
  {
    ((p2.x - p1.x) * (p1.y - p3.y) - (p2.y - p1.y) * (p1.x - p3.x))
      / Determinant(p1, p2, p3, p4)
  }

  /** Parameter of the crossing along the first segment, from `p1` to `p2`. */
  function ParamT(p1: Point, p2: Point, p3: Point, p4: Point): real
    requires Determinant(p1, p2, p3, p4) != 0.0
  {
    ((p4.x - p3.x) * (p1.y - p3.y) - (p4.y - p3.y) * (p1.x - p3.x))
      / Determinant(p1, p2, p3, p4)
  }

  /** The crossing point of segments p1-p2 and p3-p4, or None when they are
      parallel or collinear or when either parameter leaves [0, 1].
      The parameter along the first segment is only computed once the one
      along the second is known to be in range. */
  function CalculateIntersection(p1: Point, p2: Point, p3: Point, p4: Point): (r: Option<Point>)
    ensures Determinant(p1, p2, p3, p4) == 0.0 ==> r == None
    ensures r.Some? ==>
      Determinant(p1, p2, p3, p4) != 0.0 &&
      InUnit(ParamS(p1, p2, p3, p4)) && InUnit(ParamT(p1, p2, p3, p4)) &&
      r.value == Lerp(p1, p2, ParamT(p1, p2, p3, p4))
  {
    var d := Determinant(p1, p2, p3, p4);
    if d != 0.0 then
      var s := ParamS(p1, p2, p3, p4);
      if 0.0 <= s && s <= 1.0 then
        var t := ParamT(p1, p2, p3, p4);
        if 0.0 <= t && t <= 1.0 then
          Some(Point(p1.x + t * (p2.x - p1.x), p1.y + t * (p2.y - p1.y)))
        else None
      else None
    else None
  }

  /** Independent reference: `q` lies on both closed segments. */
  ghost predicate CrossesAt(p1: Point, p2: Point, p3: Point, p4: Point, q: Point) {
    exists t: real, s: real :: InUnit(t) && InUnit(s) && q == Lerp(p1, p2, t) && q == Lerp(p3, p4, s)
  }

  /** The point reached on the first segment at parameter t is also reached
      on the second segment at parameter s. */
  lemma OnBothSegments(p1: Point, p2: Point, p3: Point, p4: Point)
    requires Determinant(p1, p2, p3, p4) != 0.0
    ensures Lerp(p1, p2, ParamT(p1, p2, p3, p4)) == Lerp(p3, p4, ParamS(p1, p2, p3, p4))
  {
    var d := Determinant(p1, p2, p3, p4);
    var d1x, d1y := p2.x - p1.x, p2.y - p1.y;
    var d2x, d2y := p4.x - p3.x, p4.y - p3.y;
    var px, py := p1.x - p3.x, p1.y - p3.y;
    var s, t := ParamS(p1, p2, p3, p4), ParamT(p1, p2, p3, p4);
    assert s * d == d1x * py - d1y * px;
    assert t * d == d2x * py - d2y * px;
    CramerSolves(d1x, d1y, d2x, d2y, px, py, s, t);
    assert p1.x + t * d1x == p3.x + s * d2x;
    assert p1.y + t * d1y == p3.y + s * d2y;
  }

  /** For non-parallel segments the two parameters of a common point are
      unique: they are ParamT and ParamS (Cramer's rule). */
  lemma ParametersUnique(p1: Point, p2: Point, p3: Point, p4: Point, t: real, s: real)
    requires Determinant(p1, p2, p3, p4) != 0.0
    requires Lerp(p1, p2, t) == Lerp(p3, p4, s)
    ensures t == ParamT(p1, p2, p3, p4) && s == ParamS(p1, p2, p3, p4)
  {
    var d := Determinant(p1, p2, p3, p4);
    var d1x, d1y := p2.x - p1.x, p2.y - p1.y;
    var d2x, d2y := p4.x - p3.x, p4.y - p3.y;
    var px, py := p1.x - p3.x, p1.y - p3.y;
    assert t * d1x - s * d2x == -px;
    assert t * d1y - s * d2y == -py;
    assert t * d == d2y * (t * d1x) - d2x * (t * d1y);
    assert t * d == d2x * py - d2y * px;
    assert ParamT(p1, p2, p3, p4) * d == d2x * py - d2y * px;
    CancelFactor(t, ParamT(p1, p2, p3, p4), d);
    assert s * d == d1x * (s * d2y) - d1y * (s * d2x);
    assert s * d == d1x * py - d1y * px;
    assert ParamS(p1, p2, p3, p4) * d == d1x * py - d1y * px;
    CancelFactor(s, ParamS(p1, p2, p3, p4), d);
  }

  /** For non-parallel segments the result is exactly the common point of the
      two closed segments: Some(q) if and only if q lies on both. */
  lemma IntersectionIsCrossing(p1: Point, p2: Point, p3: Point, p4: Point, q: Point)
    requires Determinant(p1, p2, p3, p4) != 0.0
    ensures CalculateIntersection(p1, p2, p3, p4) == Some(q) <==> CrossesAt(p1, p2, p3, p4, q)
  {
    var t, s := ParamT(p1, p2, p3, p4), ParamS(p1, p2, p3, p4);
    OnBothSegments(p1, p2, p3, p4);
    if CalculateIntersection(p1, p2, p3, p4) == Some(q) {
      assert InUnit(t) && InUnit(s) && q == Lerp(p1, p2, t) && q == Lerp(p3, p4, s);
    }
    if CrossesAt(p1, p2, p3, p4, q) {
      var t', s' :| InUnit(t') && InUnit(s') && q == Lerp(p1, p2, t') && q == Lerp(p3, p4, s');
      ParametersUnique(p1, p2, p3, p4, t', s');
    }
  }

  /** No common point of non-parallel segments means no result. */
  lemma NoCrossingNoResult(p1: Point, p2: Point, p3: Point, p4: Point)
    requires forall q :: !CrossesAt(p1, p2, p3, p4, q)
    ensures CalculateIntersection(p1, p2, p3, p4) == None
  {
    if Determinant(p1, p2, p3, p4) != 0.0 && CalculateIntersection(p1, p2, p3, p4).Some? {
      IntersectionIsCrossing(p1, p2, p3, p4, CalculateIntersection(p1, p2, p3, p4).value);
    }
  }

  /** Swapping the two segments gives the same answer. */
  lemma Symmetric(p1: Point, p2: Point, p3: Point, p4: Point)
    ensures CalculateIntersection(p3, p4, p1, p2) == CalculateIntersection(p1, p2, p3, p4)
  {
    assert Determinant(p3, p4, p1, p2) == -Determinant(p1, p2, p3, p4);
    if Determinant(p1, p2, p3, p4) != 0.0 {
      var r := CalculateIntersection(p1, p2, p3, p4);
      var r' := CalculateIntersection(p3, p4, p1, p2);
      if r.Some? {
        IntersectionIsCrossing(p1, p2, p3, p4, r.value);
        var t, s :| InUnit(t) && InUnit(s) && r.value == Lerp(p1, p2, t) && r.value == Lerp(p3, p4, s);
        assert CrossesAt(p3, p4, p1, p2, r.value) by {
          assert InUnit(s) && InUnit(t) && r.value == Lerp(p3, p4, s) && r.value == Lerp(p1, p2, t);
        }
        IntersectionIsCrossing(p3, p4, p1, p2, r.value);
      } else if r'.Some? {
        IntersectionIsCrossing(p3, p4, p1, p2, r'.value);
        var t, s :| InUnit(t) && InUnit(s) && r'.value == Lerp(p3, p4, t) && r'.value == Lerp(p1, p2, s);
        assert CrossesAt(p1, p2, p3, p4, r'.value) by {
          assert InUnit(s) && InUnit(t) && r'.value == Lerp(p1, p2, s) && r'.value == Lerp(p3, p4, t);
        }
        IntersectionIsCrossing(p1, p2, p3, p4, r'.value);
      }
    }
  }

  /** Non-parallel segments that share an endpoint meet at that endpoint. */
  lemma SharedEndpointIsHit(p1: Point, p2: Point, p3: Point, p4: Point, q: Point)
    requires Determinant(p1, p2, p3, p4) != 0.0
    requires q == p1 || q == p2
    requires q == p3 || q == p4
    ensures CalculateIntersection(p1, p2, p3, p4) == Some(q)
  {
    var t := if q == p1 then 0.0 else 1.0;
    var s := if q == p3 then 0.0 else 1.0;
    assert InUnit(t) && InUnit(s) && q == Lerp(p1, p2, t) && q == Lerp(p3, p4, s);
    IntersectionIsCrossing(p1, p2, p3, p4, q);
  }

  /** The two diagonals of the square (0,0)-(10,10) cross at its centre. */
  lemma DiagonalsCross()
    ensures CalculateIntersection(Point(0.0, 0.0), Point(10.0, 10.0), Point(0.0, 10.0), Point(10.0, 0.0))
            == Some(Point(5.0, 5.0))
  {
  }

  /** Disjoint collinear segments report no point. */
  lemma CollinearDisjointMiss()
    ensures CalculateIntersection(Point(0.0, 0.0), Point(5.0, 0.0), Point(10.0, 0.0), Point(15.0, 0.0)) == None
  {
  }

  /** Overlapping collinear segments report no point either. */
  lemma CollinearOverlapMiss()
    ensures CalculateIntersection(Point(0.0, 0.0), Point(10.0, 0.0), Point(5.0, 0.0), Point(15.0, 0.0)) == None
  {
  }

  /** The supporting lines cross at (5,5), outside the short first segment. */
  lemma OutOfRangeMiss()
    ensures CalculateIntersection(Point(0.0, 0.0), Point(1.0, 1.0), Point(0.0, 10.0), Point(10.0, 0.0)) == None
  {
    var p1, p2, p3, p4 := Point(0.0, 0.0), Point(1.0, 1.0), Point(0.0, 10.0), Point(10.0, 0.0);
    assert Determinant(p1, p2, p3, p4) == -20.0;
    assert ParamT(p1, p2, p3, p4) == 5.0;
  }
}
