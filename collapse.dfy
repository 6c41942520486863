/** One frame of the collapse animation (the `animate` closure of
    `onCollapse` in src/index.js) as a function on the sequence of drawn
    lines, and what repeated frames do. */
module Collapse {
  import opened Geometry
  import opened Lines

  predicate AllNonDegenerate(ls: seq<Line>) {
    forall i :: 0 <= i < |ls| ==> NonDegenerate(ls[i])
  }

  /** The line after this frame's move of both ends. */
  function Advance(l: Line, sqrt: real -> real): Line
    requires IsSqrt(sqrt) && NonDegenerate(l)
  {
    Move(l, GetVector(l, sqrt))
  }

  /** The splice test, applied to the moved line and the centre taken
      before the move. */
  predicate Collapsed(l: Line, sqrt: real -> real)
    requires IsSqrt(sqrt) && NonDegenerate(l)
  {
    PastCenter(Advance(l, sqrt), l.CenterPosition())
  }

  /** One frame. `forEach` visits index 0, 1, 2, ... of the live array; a
      line that collapses is spliced out at its index, so the line behind it
      slides into that index and is passed over, unmoved, for the rest of
      the frame. A zero-length line has no direction: the source divides
      0 by 0 and every comparison of the removal test is false, so the line
      is never spliced; the model keeps it as it is. */
  function Frame(ls: seq<Line>, sqrt: real -> real): (r: seq<Line>)
    requires IsSqrt(sqrt)
    ensures |r| <= |ls|
    ensures AllNonDegenerate(ls) ==> AllNonDegenerate(r)
    decreases |ls|
  {
    if ls == [] then []
    else if !NonDegenerate(ls[0]) then [ls[0]] + Frame(ls[1..], sqrt)
    else if Collapsed(ls[0], sqrt) then
      if |ls| == 1 then [] else [ls[1]] + Frame(ls[2..], sqrt)
    else
      var moved := Advance(ls[0], sqrt);
      PastCenterIff(ls[0], GetVector(ls[0], sqrt));
      [moved] + Frame(ls[1..], sqrt)
  }

  /** The frame unrolled at index k for a zero-length line: it stays. */
  lemma FrameStepKeep(a: seq<Line>, k: nat, sqrt: real -> real)
    requires IsSqrt(sqrt) && k < |a| && !NonDegenerate(a[k])
    ensures a[..k] + Frame(a[k..], sqrt) == a[..k + 1] + Frame(a[k + 1..], sqrt)
  {
    assert a[k..][1..] == a[k + 1..];
    assert a[..k + 1] == a[..k] + [a[k]];
  }

  /** The frame unrolled at index k for a line that is moved and kept. */
  lemma FrameStepMove(a: seq<Line>, k: nat, sqrt: real -> real)
    requires IsSqrt(sqrt) && k < |a| && NonDegenerate(a[k]) && !Collapsed(a[k], sqrt)
    ensures var b := a[k := Advance(a[k], sqrt)];
            a[..k] + Frame(a[k..], sqrt) == b[..k + 1] + Frame(b[k + 1..], sqrt)
  {
    var b := a[k := Advance(a[k], sqrt)];
    assert a[k..][1..] == a[k + 1..] == b[k + 1..];
    assert b[..k + 1] == a[..k] + [Advance(a[k], sqrt)];
  }

  /** The frame unrolled at index k for a line that is spliced: the next
      visit lands one further on, past the line that slid into index k. */
  lemma FrameStepSplice(a: seq<Line>, k: nat, sqrt: real -> real)
    requires IsSqrt(sqrt) && k < |a| && NonDegenerate(a[k]) && Collapsed(a[k], sqrt)
    ensures var b := a[..k] + a[k + 1..];
            (k + 1 <= |b| ==> a[..k] + Frame(a[k..], sqrt) == b[..k + 1] + Frame(b[k + 1..], sqrt)) &&
            (k + 1 > |b| ==> a[..k] + Frame(a[k..], sqrt) == b)
  {
    var b := a[..k] + a[k + 1..];
    if k + 1 < |a| {
      assert a[k..][1] == a[k + 1];
      assert a[k..][2..] == a[k + 2..] == b[k + 1..];
      assert b[..k + 1] == a[..k] + [a[k + 1]];
    } else {
      assert b == a[..k];
    }
  }

  /** `n` further frames, stopping early once no line is left (the frame
      that empties the array cancels the next one). */
  function Frames(ls: seq<Line>, n: nat, sqrt: real -> real): (r: seq<Line>)
    requires IsSqrt(sqrt)
    ensures |r| <= |ls|
    decreases n
  {
    if n == 0 || ls == [] then ls else Frames(Frame(ls, sqrt), n - 1, sqrt)
  }

  /** The centres of a sequence of lines, in order. */
  function Centers(ls: seq<Line>): (cs: seq<Point>)
    ensures |cs| == |ls|
    ensures forall i :: 0 <= i < |ls| ==> cs[i] == ls[i].CenterPosition()
  {
    if ls == [] then [] else [ls[0].CenterPosition()] + Centers(ls[1..])
  }

  /** `a` can be obtained from `b` by deleting elements. */
  predicate IsSubsequence<T(==)>(a: seq<T>, b: seq<T>)
    decreases |b|
  {
    a == [] || (b != [] && ((a[0] == b[0] && IsSubsequence(a[1..], b[1..])) || IsSubsequence(a, b[1..])))
  }

  /** A frame never creates a line and never reorders survivors: the
      centres after the frame are the centres before it with those of the
      spliced lines deleted. */
  lemma {:induction false} FrameKeepsCentersInOrder(ls: seq<Line>, sqrt: real -> real)
    requires IsSqrt(sqrt)
    ensures IsSubsequence(Centers(Frame(ls, sqrt)), Centers(ls))
    decreases |ls|
  {
    if ls != [] {
      var r := Frame(ls, sqrt);
      var cs := Centers(ls);
      assert cs[1..] == Centers(ls[1..]);
      if !NonDegenerate(ls[0]) {
        FrameKeepsCentersInOrder(ls[1..], sqrt);
        assert Centers(r) == [ls[0].CenterPosition()] + Centers(Frame(ls[1..], sqrt));
      } else if Collapsed(ls[0], sqrt) {
        if |ls| > 1 {
          FrameKeepsCentersInOrder(ls[2..], sqrt);
          assert ls[1..][1..] == ls[2..];
          assert cs[1..][1..] == Centers(ls[2..]);
          assert Centers(r) == [ls[1].CenterPosition()] + Centers(Frame(ls[2..], sqrt));
        } else {
          assert r == [];
        }
      } else {
        FrameKeepsCentersInOrder(ls[1..], sqrt);
        MoveKeepsCenter(ls[0], GetVector(ls[0], sqrt));
        assert Centers(r) == [ls[0].CenterPosition()] + Centers(Frame(ls[1..], sqrt));
      }
    }
  }

  /** Adds k to every index of o. */
  function Shift(o: seq<nat>, k: nat): (r: seq<nat>)
    ensures |r| == |o|
    ensures forall i :: 0 <= i < |o| ==> r[i] == o[i] + k
  {
    seq(|o|, i requires 0 <= i < |o| => o[i] + k)
  }

  /** For each line that comes out of a frame, the index in the old array
      of the line it comes from. */
  function Origins(ls: seq<Line>, sqrt: real -> real): seq<nat>
    requires IsSqrt(sqrt)
    decreases |ls|
  {
    if ls == [] then []
    else if !NonDegenerate(ls[0]) then [0] + Shift(Origins(ls[1..], sqrt), 1)
    else if Collapsed(ls[0], sqrt) then
      if |ls| == 1 then [] else [1] + Shift(Origins(ls[2..], sqrt), 2)
    else [0] + Shift(Origins(ls[1..], sqrt), 1)
  }

  /** `out` is `orig` itself, or `orig` moved by one frame without meeting
      the splice test. */
  predicate Derived(out: Line, orig: Line, sqrt: real -> real)
    requires IsSqrt(sqrt)
  {
    out == orig || (NonDegenerate(orig) && !Collapsed(orig, sqrt) && out == Advance(orig, sqrt))
  }

  /** Each line of `r` is derived from the line of `ls` that `o` names. */
  predicate MapsInto(ls: seq<Line>, r: seq<Line>, o: seq<nat>, sqrt: real -> real)
    requires IsSqrt(sqrt)
  {
    |o| == |r| && forall i :: 0 <= i < |o| ==> o[i] < |ls| && Derived(r[i], ls[o[i]], sqrt)
  }

  predicate Increasing(o: seq<nat>) {
    forall i, j :: 0 <= i < j < |o| ==> o[i] < o[j]
  }

  /** Every line of `ls` that `o` leaves out met the splice test. */
  predicate DropsOnlySpliced(ls: seq<Line>, o: seq<nat>, sqrt: real -> real)
    requires IsSqrt(sqrt)
  {
    forall k :: 0 <= k < |ls| && k !in o ==> NonDegenerate(ls[k]) && Collapsed(ls[k], sqrt)
  }

  /** `o` maps the lines of `r` to the lines of `ls` they come from: in
      increasing order, and leaving out only lines that met the splice
      test. */
  predicate Tracks(ls: seq<Line>, r: seq<Line>, o: seq<nat>, sqrt: real -> real)
    requires IsSqrt(sqrt)
  {
    MapsInto(ls, r, o, sqrt) && Increasing(o) && DropsOnlySpliced(ls, o, sqrt)
  }

  /** One step of the frame: a first output line `h` taken from index c,
      the lines before index d other than c spliced, the rest of the output
      tracked from index d on. */
  lemma PrependOrigin(ls: seq<Line>, d: nat, c: nat, h: Line, rt: seq<Line>, ot: seq<nat>, sqrt: real -> real)
    requires IsSqrt(sqrt) && d <= |ls| && c < d
    requires Derived(h, ls[c], sqrt)
    requires forall k :: 0 <= k < d && k != c ==> NonDegenerate(ls[k]) && Collapsed(ls[k], sqrt)
    requires Tracks(ls[d..], rt, ot, sqrt)
    ensures Tracks(ls, [h] + rt, [c] + Shift(ot, d), sqrt)
  {
    PrependMapsInto(ls, d, c, h, rt, ot, sqrt);
    PrependIncreasing(c, d, ot);
    PrependDropsOnlySpliced(ls, d, c, ot, sqrt);
  }

  lemma PrependMapsInto(ls: seq<Line>, d: nat, c: nat, h: Line, rt: seq<Line>, ot: seq<nat>, sqrt: real -> real)
    requires IsSqrt(sqrt) && d <= |ls| && c < d
    requires Derived(h, ls[c], sqrt)
    requires MapsInto(ls[d..], rt, ot, sqrt)
    ensures MapsInto(ls, [h] + rt, [c] + Shift(ot, d), sqrt)
  {
    var r, o := [h] + rt, [c] + Shift(ot, d);
    forall i | 0 <= i < |o| ensures o[i] < |ls| && Derived(r[i], ls[o[i]], sqrt) {
      if i > 0 {
        assert r[i] == rt[i - 1] && o[i] == ot[i - 1] + d;
        assert ls[o[i]] == ls[d..][ot[i - 1]];
      }
    }
  }

  lemma PrependIncreasing(c: nat, d: nat, ot: seq<nat>)
    requires c < d && Increasing(ot)
    ensures Increasing([c] + Shift(ot, d))
  {
  }

  lemma PrependDropsOnlySpliced(ls: seq<Line>, d: nat, c: nat, ot: seq<nat>, sqrt: real -> real)
    requires IsSqrt(sqrt) && d <= |ls| && c < d
    requires forall k :: 0 <= k < d && k != c ==> NonDegenerate(ls[k]) && Collapsed(ls[k], sqrt)
    requires DropsOnlySpliced(ls[d..], ot, sqrt)
    ensures DropsOnlySpliced(ls, [c] + Shift(ot, d), sqrt)
  {
    var o := [c] + Shift(ot, d);
    forall k | 0 <= k < |ls| && k !in o ensures NonDegenerate(ls[k]) && Collapsed(ls[k], sqrt) {
      if k >= d {
        forall m | 0 <= m < |ot| ensures ot[m] != k - d {
          assert o[m + 1] == ot[m] + d;
        }
        assert ls[d..][k - d] == ls[k];
      }
    }
  }

  /** A frame creates no line and reorders none: every line that comes out
      of it is a line of the old array, unchanged or moved without meeting
      the splice test, the old indices increase along the new array, and
      every old line left out met the splice test. */
  lemma {:induction false} FrameKeepsLinesInOrder(ls: seq<Line>, sqrt: real -> real)
    requires IsSqrt(sqrt)
    ensures Tracks(ls, Frame(ls, sqrt), Origins(ls, sqrt), sqrt)
    decreases |ls|
  {
    if ls == [] {
    } else if !NonDegenerate(ls[0]) {
      FrameKeepsLinesInOrder(ls[1..], sqrt);
      PrependOrigin(ls, 1, 0, ls[0], Frame(ls[1..], sqrt), Origins(ls[1..], sqrt), sqrt);
    } else if Collapsed(ls[0], sqrt) {
      if |ls| > 1 {
        FrameKeepsLinesInOrder(ls[2..], sqrt);
        PrependOrigin(ls, 2, 1, ls[1], Frame(ls[2..], sqrt), Origins(ls[2..], sqrt), sqrt);
      }
    } else {
      FrameKeepsLinesInOrder(ls[1..], sqrt);
      PrependOrigin(ls, 1, 0, Advance(ls[0], sqrt), Frame(ls[1..], sqrt), Origins(ls[1..], sqrt), sqrt);
    }
  }

  /** A moved line that survives runs strictly down-right. */
  lemma DerivedRunsDownRight(out: Line, orig: Line, sqrt: real -> real)
    requires IsSqrt(sqrt) && Derived(out, orig, sqrt)
    ensures out == orig || out.RunsDownRight()
  {
    if out != orig {
      PastCenterIff(orig, GetVector(orig, sqrt));
    }
  }

  /** When no line collapses, a frame moves every line and removes none. */
  lemma {:induction false} FrameWithoutCollapse(ls: seq<Line>, sqrt: real -> real)
    requires IsSqrt(sqrt) && AllNonDegenerate(ls)
    requires forall i :: 0 <= i < |ls| ==> !Collapsed(ls[i], sqrt)
    ensures |Frame(ls, sqrt)| == |ls|
    ensures forall i :: 0 <= i < |ls| ==> Frame(ls, sqrt)[i] == Advance(ls[i], sqrt)
    decreases |ls|
  {
    if ls != [] {
      assert !Collapsed(ls[0], sqrt);
      FrameWithoutCollapse(ls[1..], sqrt);
      var r := Frame(ls, sqrt);
      assert r == [Advance(ls[0], sqrt)] + Frame(ls[1..], sqrt);
      forall i | 0 <= i < |ls| ensures r[i] == Advance(ls[i], sqrt) {
        if i > 0 { assert r[i] == Frame(ls[1..], sqrt)[i - 1]; }
      }
    }
  }

  /** A line that is spliced out shields the line behind it: that one comes
      out of the frame exactly as it went in. */
  lemma FrameSkipsFollower(ls: seq<Line>, sqrt: real -> real)
    requires IsSqrt(sqrt) && |ls| >= 2 && NonDegenerate(ls[0]) && Collapsed(ls[0], sqrt)
    ensures Frame(ls, sqrt) == [ls[1]] + Frame(ls[2..], sqrt)
  {
  }

  /** Every line that comes out of a frame is either one the frame passed
      over, unchanged, or a moved line that runs strictly down-right,
      whatever its direction before. */
  lemma {:induction false} SurvivorsRunDownRight(ls: seq<Line>, sqrt: real -> real, i: nat)
    requires IsSqrt(sqrt)
    requires i < |Frame(ls, sqrt)|
    ensures Frame(ls, sqrt)[i] in ls || Frame(ls, sqrt)[i].RunsDownRight()
    decreases |ls|
  {
    var r := Frame(ls, sqrt);
    if !NonDegenerate(ls[0]) {
      if i > 0 {
        SurvivorsRunDownRight(ls[1..], sqrt, i - 1);
        assert r[i] == Frame(ls[1..], sqrt)[i - 1];
        assert Frame(ls[1..], sqrt)[i - 1] in ls[1..] ==> r[i] in ls;
      }
    } else if Collapsed(ls[0], sqrt) {
      if i > 0 {
        SurvivorsRunDownRight(ls[2..], sqrt, i - 1);
        assert r[i] == Frame(ls[2..], sqrt)[i - 1];
        assert Frame(ls[2..], sqrt)[i - 1] in ls[2..] ==> r[i] in ls;
      }
    } else {
      if i == 0 {
        PastCenterIff(ls[0], GetVector(ls[0], sqrt));
      } else {
        SurvivorsRunDownRight(ls[1..], sqrt, i - 1);
        assert r[i] == Frame(ls[1..], sqrt)[i - 1];
        assert Frame(ls[1..], sqrt)[i - 1] in ls[1..] ==> r[i] in ls;
      }
    }
  }

  /** A frame never removes a zero-length line. */
  lemma {:induction false} FrameKeepsZeroLength(ls: seq<Line>, sqrt: real -> real, l: Line)
    requires IsSqrt(sqrt) && l in ls && !NonDegenerate(l)
    ensures l in Frame(ls, sqrt)
    decreases |ls|
  {
    var r := Frame(ls, sqrt);
    if ls[0] == l {
      assert r[0] == l;
    } else if !NonDegenerate(ls[0]) {
      assert l in ls[1..];
      FrameKeepsZeroLength(ls[1..], sqrt, l);
      assert r[1..] == Frame(ls[1..], sqrt);
    } else if Collapsed(ls[0], sqrt) {
      if ls[1] == l {
        assert r[0] == l;
      } else {
        assert l in ls[2..];
        FrameKeepsZeroLength(ls[2..], sqrt, l);
        assert r[1..] == Frame(ls[2..], sqrt);
      }
    } else {
      assert l in ls[1..];
      FrameKeepsZeroLength(ls[1..], sqrt, l);
      assert r[1..] == Frame(ls[1..], sqrt);
    }
  }

  /** Once a zero-length line has been drawn the animation never ends: the
      line outlives any number of frames, so the array never empties. */
  lemma {:induction false} ZeroLengthLineNeverLeaves(ls: seq<Line>, n: nat, sqrt: real -> real, l: Line)
    requires IsSqrt(sqrt) && l in ls && !NonDegenerate(l)
    ensures l in Frames(ls, n, sqrt)
    decreases n
  {
    if n > 0 {
      FrameKeepsZeroLength(ls, sqrt, l);
      ZeroLengthLineNeverLeaves(Frame(ls, sqrt), n - 1, sqrt, l);
    }
  }

  /** How many more frames that reach a line it can take before it is
      spliced: a down-right line of half-length r loses one step per frame,
      any other line is gone within two frames. */
  function Budget(l: Line, sqrt: real -> real): (b: nat)
    requires IsSqrt(sqrt) && NonDegenerate(l)
    ensures b >= 1
  {
    if l.RunsDownRight() then (HalfLength(l, sqrt) / LineStep).Floor + 1 else 2
  }

  /** The budgets of all lines together. */
  function Potential(ls: seq<Line>, sqrt: real -> real): (p: nat)
    requires IsSqrt(sqrt) && AllNonDegenerate(ls)
    ensures p >= |ls|
  {
    if ls == [] then 0 else Budget(ls[0], sqrt) + Potential(ls[1..], sqrt)
  }

  /** A line that a frame moves without splicing it has a smaller budget
      afterwards. */
  lemma AdvanceLowersBudget(l: Line, sqrt: real -> real)
    requires IsSqrt(sqrt) && NonDegenerate(l) && !Collapsed(l, sqrt)
    ensures NonDegenerate(Advance(l, sqrt))
    ensures Budget(Advance(l, sqrt), sqrt) < Budget(l, sqrt)
  {
    var m := Advance(l, sqrt);
    var r := HalfLength(l, sqrt);
    PastCenterIff(l, GetVector(l, sqrt));
    assert m.RunsDownRight();
    SurvivesIff(l, sqrt);
    MovedHalfLength(l, sqrt);
    var r' := HalfLength(m, sqrt);
    if l.RunsDownRight() {
      assert r' == r - LineStep;
      assert r' / LineStep == r / LineStep - 1.0;
    } else {
      assert r < LineStep && r' == LineStep - r;
      assert 0.0 <= r' / LineStep < 1.0;
      assert (r' / LineStep).Floor == 0;
    }
  }

  /** Every frame on a non-empty array uses up at least one unit of the
      potential: the first line is always reached, and is either spliced or
      moved closer to its end. */
  lemma {:induction false} FrameLowersPotential(ls: seq<Line>, sqrt: real -> real)
    requires IsSqrt(sqrt) && AllNonDegenerate(ls)
    ensures ls != [] ==> Potential(Frame(ls, sqrt), sqrt) < Potential(ls, sqrt)
    ensures Potential(Frame(ls, sqrt), sqrt) <= Potential(ls, sqrt)
    decreases |ls|
  {
    if ls != [] {
      var r := Frame(ls, sqrt);
      assert NonDegenerate(ls[0]);
      if Collapsed(ls[0], sqrt) {
        if |ls| > 1 {
          var rest := Frame(ls[2..], sqrt);
          FrameLowersPotential(ls[2..], sqrt);
          assert r == [ls[1]] + rest;
          assert r[1..] == rest;
          assert ls[1..][1..] == ls[2..];
          assert Potential(ls, sqrt) == Budget(ls[0], sqrt) + Budget(ls[1], sqrt) + Potential(ls[2..], sqrt);
        }
      } else {
        var rest := Frame(ls[1..], sqrt);
        FrameLowersPotential(ls[1..], sqrt);
        AdvanceLowersBudget(ls[0], sqrt);
        assert r == [Advance(ls[0], sqrt)] + rest;
        assert r[1..] == rest;
      }
    }
  }

  /** The animation ends: from any array of lines of non-zero length, as
      many frames as the potential empty it. */
  lemma {:induction false} CollapseTerminates(ls: seq<Line>, n: nat, sqrt: real -> real)
    requires IsSqrt(sqrt) && AllNonDegenerate(ls)
    requires n >= Potential(ls, sqrt)
    ensures Frames(ls, n, sqrt) == []
    decreases n
  {
    if n > 0 && ls != [] {
      FrameLowersPotential(ls, sqrt);
      CollapseTerminates(Frame(ls, sqrt), n - 1, sqrt);
    }
  }

  /** The horizontal line (0,0)-(20,0) is spliced in the very first frame:
      after the move its start (5,0) already satisfies `start.y >= center.y`. */
  lemma HorizontalLineGoneAfterOneFrame(sqrt: real -> real)
    requires IsSqrt(sqrt)
    ensures Frame([Line(Point(0.0, 0.0), Point(20.0, 0.0))], sqrt) == []
  {
    var l := Line(Point(0.0, 0.0), Point(20.0, 0.0));
    AxisAlignedLineVanishes(l, sqrt);
  }

  /** An up-left line between one and two steps long on each side also
      overshoots, but comes out shorter: (4.8,6.4)-(0,0), half-length 4,
      becomes (1.8,2.4)-(3,4), half-length 1. */
  lemma MidLineShrinksTurnedRound(sqrt: real -> real)
    requires IsSqrt(sqrt)
    ensures Frame([Line(Point(4.8, 6.4), Point(0.0, 0.0))], sqrt)
            == [Line(Point(1.8, 2.4), Point(3.0, 4.0))]
  {
    var l := Line(Point(4.8, 6.4), Point(0.0, 0.0));
    assert l.ToCenter() == Point(-2.4, -3.2);
    assert l.HalfLengthSquared() == 16.0;
    SqrtOfSquare(sqrt, 4.0);
    assert HalfLength(l, sqrt) == 4.0;
    assert GetVector(l, sqrt) == Point(-0.6, -0.8);
    assert Advance(l, sqrt) == Line(Point(1.8, 2.4), Point(3.0, 4.0));
  }

  /** A short up-left line overshoots its centre and comes out of the frame
      four times as long, turned round: (1.2,1.6)-(0,0), half-length 1,
      becomes (-1.8,-2.4)-(3,4), half-length 4. */
  lemma ShortLineGrows(sqrt: real -> real)
    requires IsSqrt(sqrt)
    ensures Frame([Line(Point(1.2, 1.6), Point(0.0, 0.0))], sqrt)
            == [Line(Point(-1.8, -2.4), Point(3.0, 4.0))]
  {
    var l := Line(Point(1.2, 1.6), Point(0.0, 0.0));
    assert l.ToCenter() == Point(-0.6, -0.8);
    assert l.HalfLengthSquared() == 1.0;
    SqrtOfSquare(sqrt, 1.0);
    assert HalfLength(l, sqrt) == 1.0;
    assert GetVector(l, sqrt) == Point(-0.6, -0.8);
    assert Advance(l, sqrt) == Line(Point(-1.8, -2.4), Point(3.0, 4.0));
  }
}
