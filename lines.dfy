/** The drawn segment of src/index.js (`class Line`) as a value: its centre,
    its unit direction and the move one collapse frame applies to it. */
module Lines {
  import opened RealArith
  import opened Geometry

  /** The distance each end of a line travels per collapse frame (`lineStep`). */
  const LineStep: real := 5.0

  datatype Line = Line(startPosition: Point, endPosition: Point) {

    /** `getCenterPosition`: half the way from the start to the end. */
    function CenterPosition(): (c: Point)
      ensures c.x - startPosition.x == endPosition.x - c.x
      ensures c.y - startPosition.y == endPosition.y - c.y
    {
      Point((endPosition.x - startPosition.x) / 2.0 + startPosition.x,
            (endPosition.y - startPosition.y) / 2.0 + startPosition.y)
    }

    /** The vector from the start to the centre, before normalisation. */
    function ToCenter(): Point {
      var c := CenterPosition();
      Point(c.x - startPosition.x, c.y - startPosition.y)
    }

    /** Squared length of ToCenter(), the argument of the square root. */
    function HalfLengthSquared(): real {
      var u := ToCenter();
      u.x * u.x + u.y * u.y
    }

    /** The line runs strictly right and strictly down (both coordinates grow). */
    predicate RunsDownRight() {
      startPosition.x < endPosition.x && startPosition.y < endPosition.y
    }

    /** The line runs strictly left and strictly up (both coordinates shrink). */
    predicate RunsUpLeft() {
      endPosition.x < startPosition.x && endPosition.y < startPosition.y
    }
  }

  /** Zero-length lines are outside the collapse step: normalising their
      direction divides by zero. */
  predicate NonDegenerate(l: Line) {
    l.startPosition != l.endPosition
  }

  /** `Math.sqrt`, abstracted: a function that yields the non-negative root of
      every non-negative real. */
  ghost predicate IsSqrt(sqrt: real -> real) {
    forall x: real :: 0.0 <= x ==> 0.0 <= sqrt(x) && sqrt(x) * sqrt(x) == x
  }

  /** The root of a square is the absolute value. */
  lemma SqrtOfSquare(sqrt: real -> real, a: real)
    requires IsSqrt(sqrt)
    ensures sqrt(a * a) == if a < 0.0 then -a else a
  {
    var m := if a < 0.0 then -a else a;
    assert m * m == a * a;
    RootUnique(sqrt(a * a), m);
  }

  /** A line of non-zero length has a positive half-length. */
  lemma HalfLengthPositive(l: Line, sqrt: real -> real)
    requires IsSqrt(sqrt) && NonDegenerate(l)
    ensures l.HalfLengthSquared() > 0.0
    ensures sqrt(l.HalfLengthSquared()) > 0.0
  {
    var u := l.ToCenter();
    assert u.x == (l.endPosition.x - l.startPosition.x) / 2.0;
    assert u.y == (l.endPosition.y - l.startPosition.y) / 2.0;
    assert u.x != 0.0 || u.y != 0.0;
    SquareSign(u.x, u.x * u.x);
    SquareSign(u.y, u.y * u.y);
    var h := l.HalfLengthSquared();
    assert h == u.x * u.x + u.y * u.y;
    var r := sqrt(h);
    assert r * r == h;
  }

  /** The half-length of a line, `|center - start|`. */
  function HalfLength(l: Line, sqrt: real -> real): (r: real)
    requires IsSqrt(sqrt) && NonDegenerate(l)
    ensures r > 0.0 && r * r == l.HalfLengthSquared()
  {
    HalfLengthPositive(l, sqrt);
    sqrt(l.HalfLengthSquared())
  }

  /** `getVector`: the vector from the start to the centre divided by its
      norm, with `Math.sqrt` supplied as `sqrt`. */
  function GetVector(l: Line, sqrt: real -> real): (v: Point)
    requires IsSqrt(sqrt) && NonDegenerate(l)
  {
    var u := l.ToCenter();
    var norm := HalfLength(l, sqrt);
    Point(u.x / norm, u.y / norm)
  }

  /** getVector yields a unit vector pointing from the start to the centre:
      a positive multiple of `center - start`. */
  lemma GetVectorIsUnitTowardCenter(l: Line, sqrt: real -> real)
    requires IsSqrt(sqrt) && NonDegenerate(l)
    ensures var v := GetVector(l, sqrt);
            v.x * v.x + v.y * v.y == 1.0
    ensures var r := HalfLength(l, sqrt);
            GetVector(l, sqrt).x * r == l.ToCenter().x && GetVector(l, sqrt).y * r == l.ToCenter().y
  {
    var u, r := l.ToCenter(), HalfLength(l, sqrt);
    var v := GetVector(l, sqrt);
    DivThenMul(u.x, r);
    DivThenMul(u.y, r);
    var rr := r * r;
    ProductPositive(r, r, rr);
    var e := v.x * v.x + v.y * v.y - 1.0;
    assert e * rr == (v.x * r) * (v.x * r) + (v.y * r) * (v.y * r) - r * r;
    CancelFactor(e, 0.0, rr);
  }

  /** Lines 107-114 of the animation: the start advances by `v * lineStep`,
      the end retreats by the same amount. */
  function Move(l: Line, v: Point): Line {
    Line(Point(l.startPosition.x + v.x * LineStep, l.startPosition.y + v.y * LineStep),
         Point(l.endPosition.x - v.x * LineStep, l.endPosition.y - v.y * LineStep))
  }

  /** The removal test of the animation, against the centre `c` computed
      before the move. */
  predicate PastCenter(moved: Line, c: Point) {
    (moved.startPosition.x >= c.x || moved.startPosition.y >= c.y) &&
    (moved.endPosition.x <= c.x || moved.endPosition.y <= c.y)
  }

  /** Moving both ends by equal and opposite amounts keeps the centre. */
  lemma MoveKeepsCenter(l: Line, v: Point)
    ensures Move(l, v).CenterPosition() == l.CenterPosition()
  {
  }

  /** For any move, the removal test fails exactly when the moved line still
      runs strictly down-right: the start and end comparisons of the test
      are mirror images of each other about the unchanged centre. */
  lemma PastCenterIff(l: Line, v: Point)
    ensures PastCenter(Move(l, v), l.CenterPosition()) <==> !Move(l, v).RunsDownRight()
  {
    MoveKeepsCenter(l, v);
  }

  /** One frame's move scales `center - start` by `(r - lineStep) / r`, where
      r is the half-length. */
  lemma MoveScalesToCenter(l: Line, sqrt: real -> real)
    requires IsSqrt(sqrt) && NonDegenerate(l)
    ensures var r := HalfLength(l, sqrt);
            var u, u' := l.ToCenter(), Move(l, GetVector(l, sqrt)).ToCenter();
            u'.x * r == u.x * (r - LineStep) && u'.y * r == u.y * (r - LineStep)
  {
    var r := HalfLength(l, sqrt);
    var v := GetVector(l, sqrt);
    GetVectorIsUnitTowardCenter(l, sqrt);
    MoveKeepsCenter(l, v);
    var u, u' := l.ToCenter(), Move(l, v).ToCenter();
    assert u'.x == u.x - v.x * LineStep;
    assert u'.y == u.y - v.y * LineStep;
    assert u'.x * r == u.x * r - (v.x * r) * LineStep;
    assert u'.y * r == u.y * r - (v.y * r) * LineStep;
  }

  /** A line survives a frame exactly when it runs down-right and is longer
      than two steps (start and end stop short of the centre), or runs
      up-left and is shorter than two steps (start and end overshoot the
      centre and the line turns around). Every other line, in particular
      every horizontal or vertical one, is removed in the first frame that
      reaches it. */
  lemma SurvivesIff(l: Line, sqrt: real -> real)
    requires IsSqrt(sqrt) && NonDegenerate(l)
    ensures var r := HalfLength(l, sqrt);
            !PastCenter(Move(l, GetVector(l, sqrt)), l.CenterPosition()) <==>
            (l.RunsDownRight() && r > LineStep) || (l.RunsUpLeft() && r < LineStep)
  {
    var r := HalfLength(l, sqrt);
    var v := GetVector(l, sqrt);
    var u, u' := l.ToCenter(), Move(l, v).ToCenter();
    MoveScalesToCenter(l, sqrt);
    PastCenterIff(l, v);
    assert Move(l, v).RunsDownRight() <==> u'.x > 0.0 && u'.y > 0.0;
    assert l.RunsDownRight() <==> u.x > 0.0 && u.y > 0.0;
    assert l.RunsUpLeft() <==> u.x < 0.0 && u.y < 0.0;
    SignOfScaled(u'.x, u.x, r, r - LineStep);
    SignOfScaled(u'.y, u.y, r, r - LineStep);
  }

  lemma SignOfScaled(a': real, a: real, r: real, m: real)
    requires r > 0.0 && a' * r == a * m
    ensures a' > 0.0 <==> (a > 0.0 && m > 0.0) || (a < 0.0 && m < 0.0)
  {
    ProductPositiveIff(a', r, a' * r);
    ProductPositiveIff(a, m, a * m);
  }

  /** After one frame's move the half-length is `|r - lineStep|`: a long line
      loses exactly one step, and a line shorter than one step on each side
      is reflected to the far side of its centre. */
  lemma MovedHalfLength(l: Line, sqrt: real -> real)
    requires IsSqrt(sqrt) && NonDegenerate(l)
    ensures var r := HalfLength(l, sqrt);
            var m := Move(l, GetVector(l, sqrt));
            sqrt(m.HalfLengthSquared()) == if r < LineStep then LineStep - r else r - LineStep
  {
    var r := HalfLength(l, sqrt);
    var m := Move(l, GetVector(l, sqrt));
    var u, u' := l.ToCenter(), m.ToCenter();
    MoveScalesToCenter(l, sqrt);
    var k := r - LineStep;
    ScaledByRatio(u'.x, u'.y, u.x, u.y, r, k);
    assert m.HalfLengthSquared() == k * k;
    SqrtOfSquare(sqrt, k);
  }

  /** A line whose ends share a coordinate vanishes in the first frame that
      reaches it, however long it is. */
  lemma AxisAlignedLineVanishes(l: Line, sqrt: real -> real)
    requires IsSqrt(sqrt) && NonDegenerate(l)
    requires l.startPosition.x == l.endPosition.x || l.startPosition.y == l.endPosition.y
    ensures PastCenter(Move(l, GetVector(l, sqrt)), l.CenterPosition())
  {
    SurvivesIff(l, sqrt);
  }
}
