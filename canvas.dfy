/** `class Canvas` of src/index.js: the drawing state updated in place by
    the event handlers, the pairwise intersection scan, and one frame of the
    collapse animation. */
module CanvasModel {
  import opened Geometry
  import opened Lines
  import opened PairScan
  import opened Collapse
  import opened Interaction

  class Canvas {
    var isDrawStart: bool
    var drawedLines: seq<Line>
    var temporaryStartPosition: Point
    var temporaryEndPosition: Point
    /** Whether an animation frame is requested: set by `onCollapse`, kept
        by every frame that leaves a line, cleared by the one that leaves
        none. */
    var animationScheduled: bool

    /** The drawing state as a value. */
    function Ui(): Ui
      reads this
    {
      Interaction.Ui(isDrawStart, drawedLines, temporaryStartPosition, temporaryEndPosition)
    }

    constructor()
      ensures Ui() == Initial() && !animationScheduled
    {
      isDrawStart := false;
      drawedLines := [];
      temporaryStartPosition := Point(0.0, 0.0);
      temporaryEndPosition := Point(0.0, 0.0);
      animationScheduled := false;
    }

    /** `drawIntersections`: test every pair i < j of `lines` in row order
        and collect the crossing points that get a marker. `tested` records
        the pairs in the order they are tested, for the proof only. */
    method DrawIntersections(lines: seq<Line>) returns (ghost tested: seq<(nat, nat)>, markers: seq<Point>)
      ensures tested == Pairs(|lines|)
      ensures markers == Markers(SegmentCrossing, lines)
    {
      tested, markers := [], [];
      if |lines| < 1 {
        return;
      }
      var i: nat := 0;
      while i < |lines|
        invariant 0 <= i <= |lines|
        invariant tested == PairsBefore(i, |lines|)
        invariant markers == ScanMarkers(SegmentCrossing, lines, i)
      {
        ghost var row;
        var found;
        row, found := ScanRow(lines, i);
        tested, markers := tested + row, markers + found;
        i := i + 1;
      }
    }

    /** The inner loop of `drawIntersections`: line i against every later
        line. */
    method ScanRow(lines: seq<Line>, i: nat) returns (ghost row: seq<(nat, nat)>, found: seq<Point>)
      requires i < |lines|
      ensures row == RowUpTo(i, |lines|)
      ensures found == RowMarkers(SegmentCrossing, lines, i, |lines|)
    {
      row, found := [], [];
      var j: nat := i + 1;
      while j < |lines|
        invariant i + 1 <= j <= |lines|
        invariant row == RowUpTo(i, j)
        invariant found == RowMarkers(SegmentCrossing, lines, i, j)
      {
        var intersection := CalculateIntersection(lines[i].startPosition, lines[i].endPosition,
                                                  lines[j].startPosition, lines[j].endPosition);
        row := row + [(i, j)];
        if intersection.Some? {
          found := found + [intersection.value];
        }
        j := j + 1;
      }
    }

    /** `onClick`: start a line at `at`, or commit the line in progress. */
    method OnClick(at: Point)
      modifies this
      ensures old(isDrawStart) ==>
        !isDrawStart &&
        drawedLines == old(drawedLines) + [Line(old(temporaryStartPosition), old(temporaryEndPosition))] &&
        temporaryStartPosition == old(temporaryStartPosition)
      ensures !old(isDrawStart) ==>
        isDrawStart && drawedLines == old(drawedLines) && temporaryStartPosition == at
      ensures temporaryEndPosition == old(temporaryEndPosition)
      ensures animationScheduled == old(animationScheduled)
      ensures Ui() == Handle(old(Ui()), Click(at))
    {
      if isDrawStart {
        isDrawStart := false;
        drawedLines := drawedLines + [Line(temporaryStartPosition, temporaryEndPosition)];
      } else {
        isDrawStart := true;
        temporaryStartPosition := at;
      }
    }

    /** `onMouseMove`: while drawing, record the end and show the crossings
        of the committed lines and the line in progress. */
    method OnMouseMove(at: Point) returns (markers: seq<Point>)
      modifies this
      ensures isDrawStart == old(isDrawStart) && drawedLines == old(drawedLines)
      ensures temporaryStartPosition == old(temporaryStartPosition)
      ensures temporaryEndPosition == if old(isDrawStart) then at else old(temporaryEndPosition)
      ensures animationScheduled == old(animationScheduled)
      ensures Ui() == Handle(old(Ui()), MouseMove(at))
      ensures markers == Shown(old(Ui()), MouseMove(at))
    {
      if !isDrawStart {
        return [];
      }
      temporaryEndPosition := at;
      var line := Line(temporaryStartPosition, temporaryEndPosition);
      var _, shown := DrawIntersections(drawedLines + [line]);
      markers := shown;
    }

    /** `onRightClick`: abandon the line in progress and show the crossings
        of the committed lines. */
    method OnRightClick() returns (markers: seq<Point>)
      modifies this
      ensures !isDrawStart && drawedLines == old(drawedLines)
      ensures temporaryStartPosition == old(temporaryStartPosition)
      ensures temporaryEndPosition == old(temporaryEndPosition)
      ensures animationScheduled == old(animationScheduled)
      ensures Ui() == Handle(old(Ui()), RightClick)
      ensures markers == Shown(old(Ui()), RightClick)
    {
      isDrawStart := false;
      var _, shown := DrawIntersections(drawedLines);
      markers := shown;
    }

    /** `onCollapse`: request the first animation frame. */
    method OnCollapse()
      modifies this
      ensures animationScheduled
      ensures Ui() == old(Ui())
    {
      animationScheduled := true;
    }

    /** One run of `animate`: the `forEach` over the live array with its
        in-place splice, then the frame request that is cancelled once no
        line is left. `forEach` fixes the number of visits before the first
        one and skips an index that the splices have pushed past the end. */
    method Animate(sqrt: real -> real)
      requires IsSqrt(sqrt)
      modifies this
      ensures drawedLines == Frame(old(drawedLines), sqrt)
      ensures animationScheduled == (drawedLines != [])
      ensures isDrawStart == old(isDrawStart)
      ensures temporaryStartPosition == old(temporaryStartPosition)
      ensures temporaryEndPosition == old(temporaryEndPosition)
    {
      var lines := drawedLines;
      var count := |lines|;
      var index := 0;
      while index < count
        modifies {}
        invariant index <= count && |lines| <= count
        invariant index <= |lines| ==>
          Frame(drawedLines, sqrt) == lines[..index] + Frame(lines[index..], sqrt)
        invariant index > |lines| ==> Frame(drawedLines, sqrt) == lines
      {
        if index < |lines| {
          var line := lines[index];
          if NonDegenerate(line) {
            var centerPosition := line.CenterPosition();
            var vector := GetVector(line, sqrt);
            var moved := Move(line, vector);
            if PastCenter(moved, centerPosition) {
              FrameStepSplice(lines, index, sqrt);
              lines := lines[..index] + lines[index + 1..];
            } else {
              FrameStepMove(lines, index, sqrt);
              lines := lines[index := moved];
            }
          } else {
            FrameStepKeep(lines, index, sqrt);
          }
        } else if index == |lines| {
          assert lines[index..] == [] && lines[..index] == lines;
        }
        index := index + 1;
      }
      if index <= |lines| {
        assert lines[index..] == [] && lines[..index] == lines;
      }
      drawedLines := lines;
      animationScheduled := drawedLines != [];
    }
  }
}
