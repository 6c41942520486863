/** The drawing gestures of `Canvas` (src/index.js) as a state machine on
    values: left click, mouse move and right click, and the markers each
    one draws. */
module Interaction {
  import opened Geometry
  import opened Lines
  import opened PairScan

  datatype Event = Click(at: Point) | MouseMove(at: Point) | RightClick

  /** The drawing state of a canvas: whether a line is being drawn, the
      committed lines, and the two ends of the line in progress. */
  datatype Ui = Ui(isDrawStart: bool, drawedLines: seq<Line>,
                   temporaryStartPosition: Point, temporaryEndPosition: Point)

  /** The state of a new canvas. */
  function Initial(): Ui {
    Ui(false, [], Point(0.0, 0.0), Point(0.0, 0.0))
  }

  /** The state after one event. A first click starts a line at the click;
      the next click commits the line from that start to the last recorded
      end (the second click's own position is not used); mouse moves record
      the end only while a line is in progress; a right click abandons it. */
  function Handle(u: Ui, e: Event): (r: Ui)
    ensures r.drawedLines == u.drawedLines ||
            (e.Click? && u.isDrawStart &&
             r.drawedLines == u.drawedLines + [Line(u.temporaryStartPosition, u.temporaryEndPosition)])
    ensures e.Click? ==> r.isDrawStart == !u.isDrawStart
    ensures e.RightClick? ==> !r.isDrawStart && r.drawedLines == u.drawedLines
    ensures e.MouseMove? ==> r.isDrawStart == u.isDrawStart && r.drawedLines == u.drawedLines
    ensures e.MouseMove? && !u.isDrawStart ==> r == u
  {
    match e
    case Click(at) =>
      if u.isDrawStart then
        u.(isDrawStart := false,
           drawedLines := u.drawedLines + [Line(u.temporaryStartPosition, u.temporaryEndPosition)])
      else
        u.(isDrawStart := true, temporaryStartPosition := at)
    case MouseMove(at) =>
      if !u.isDrawStart then u else u.(temporaryEndPosition := at)
    case RightClick =>
      u.(isDrawStart := false)
  }

  /** The markers an event draws: a mouse move during drawing shows the
      crossings among the committed lines and the line in progress; a right
      click shows those among the committed lines; nothing else draws any. */
  function Shown(u: Ui, e: Event): seq<Point> {
    match e
    case Click(_) => []
    case MouseMove(at) =>
      if !u.isDrawStart then []
      else
        var ls := u.drawedLines + [Line(u.temporaryStartPosition, at)];
        Markers(SegmentCrossing, ls)
    case RightClick => Markers(SegmentCrossing, u.drawedLines)
  }

  /** The state after a sequence of events, in order. */
  function Replay(u: Ui, es: seq<Event>): Ui
    decreases |es|
  {
    if es == [] then u else Replay(Handle(u, es[0]), es[1..])
  }

  function Clicks(es: seq<Event>): nat {
    if es == [] then 0 else (if es[0].Click? then 1 else 0) + Clicks(es[1..])
  }

  /** Committed lines are never changed or removed by the gestures, and
      adding one line takes two clicks (the first may have happened before
      the replayed events, if a line is in progress at their start). */
  lemma {:induction false} ReplayOnlyAppends(u: Ui, es: seq<Event>)
    ensures u.drawedLines <= Replay(u, es).drawedLines
    ensures var r := Replay(u, es);
            2 * |r.drawedLines| + (if r.isDrawStart then 1 else 0)
              <= 2 * |u.drawedLines| + (if u.isDrawStart then 1 else 0) + Clicks(es)
    decreases |es|
  {
    if es != [] {
      ReplayOnlyAppends(Handle(u, es[0]), es[1..]);
    }
  }

  /** Consequently the number of lines added is at most half the clicks,
      rounded up. */
  lemma LinesAddedBoundedByClicks(u: Ui, es: seq<Event>)
    ensures 2 * (|Replay(u, es).drawedLines| - |u.drawedLines|) <= Clicks(es) + 1
  {
    ReplayOnlyAppends(u, es);
  }

  predicate AllMoves(es: seq<Event>) {
    forall k :: 0 <= k < |es| ==> es[k].MouseMove?
  }

  /** The end position after a run of mouse moves while drawing. */
  function LastEnd(fallback: Point, moves: seq<Event>): Point
    requires AllMoves(moves)
  {
    if moves == [] then fallback else moves[|moves| - 1].at
  }

  /** Mouse moves during drawing only record the most recent position. */
  lemma {:induction false} MovesWhileDrawing(u: Ui, moves: seq<Event>)
    requires u.isDrawStart && AllMoves(moves)
    ensures Replay(u, moves) == u.(temporaryEndPosition := LastEnd(u.temporaryEndPosition, moves))
    decreases |moves|
  {
    if moves != [] {
      var u' := Handle(u, moves[0]);
      MovesWhileDrawing(u', moves[1..]);
      if |moves| > 1 {
        assert moves[1..][|moves[1..]| - 1] == moves[|moves| - 1];
      }
    }
  }

  lemma {:induction false} ReplayAppend(u: Ui, a: seq<Event>, b: seq<Event>)
    ensures Replay(u, a + b) == Replay(Replay(u, a), b)
    decreases |a|
  {
    if a == [] {
      assert a + b == b;
    } else {
      assert (a + b)[1..] == a[1..] + b;
      ReplayAppend(Handle(u, a[0]), a[1..], b);
    }
  }

  /** The drawing gesture: click at `a`, move the mouse, click again at `c`.
      It commits exactly the line from `a` to the last mouse position (or to
      the previous end if the mouse did not move); `c` plays no part. */
  lemma DrawGesture(u: Ui, a: Point, moves: seq<Event>, c: Point)
    requires !u.isDrawStart && AllMoves(moves)
    ensures var r := Replay(u, [Click(a)] + moves + [Click(c)]);
            var end := LastEnd(u.temporaryEndPosition, moves);
            r == Ui(false, u.drawedLines + [Line(a, end)], a, end)
  {
    var started := Handle(u, Click(a));
    ReplayAppend(u, [Click(a)] + moves, [Click(c)]);
    ReplayAppend(u, [Click(a)], moves);
    MovesWhileDrawing(started, moves);
  }

  /** Two clicks on a new canvas without a mouse move in between commit a
      line that ends at the origin, wherever the clicks were. */
  lemma ClickClickEndsAtOrigin(a: Point, c: Point)
    ensures Replay(Initial(), [Click(a), Click(c)]).drawedLines == [Line(a, Point(0.0, 0.0))]
  {
    DrawGesture(Initial(), a, [], c);
    assert [Click(a)] + [] + [Click(c)] == [Click(a), Click(c)];
  }

  /** A right click at any point of a gesture abandons it: nothing is
      committed, and the next click starts a new line. */
  lemma CancelledGesture(u: Ui, a: Point, moves: seq<Event>)
    requires !u.isDrawStart && AllMoves(moves)
    ensures var r := Replay(u, [Click(a)] + moves + [RightClick]);
            !r.isDrawStart && r.drawedLines == u.drawedLines
  {
    ReplayAppend(u, [Click(a)] + moves, [RightClick]);
    ReplayAppend(u, [Click(a)], moves);
    MovesWhileDrawing(Handle(u, Click(a)), moves);
  }

  /** While drawing, a mouse move marks exactly the crossings of two
      committed lines and those of the line in progress with a committed
      line. */
  lemma PreviewMarksCrossings(u: Ui, at: Point, q: Point)
    requires u.isDrawStart
    ensures var ls := u.drawedLines;
            var preview := Line(u.temporaryStartPosition, at);
            q in Shown(u, MouseMove(at)) <==>
              (exists i: nat, j: nat :: CrossingAt(SegmentCrossing, ls, i, j, q)) ||
              (exists i: nat :: i < |ls| && SegmentCrossing(ls[i], preview) == Some(q))
  {
    var ls := u.drawedLines;
    var preview := Line(u.temporaryStartPosition, at);
    var all := ls + [preview];
    var n := |ls|;
    MarkedIffSomePairCrosses(SegmentCrossing, all, q);
    if exists i: nat, j: nat :: CrossingAt(SegmentCrossing, all, i, j, q) {
      var i: nat, j: nat :| CrossingAt(SegmentCrossing, all, i, j, q);
      assert all[i] == ls[i];
      if j < n {
        assert all[j] == ls[j];
        assert CrossingAt(SegmentCrossing, ls, i, j, q);
      } else {
        assert all[j] == preview;
        assert SegmentCrossing(ls[i], preview) == Some(q);
      }
    }
    if exists i: nat, j: nat :: CrossingAt(SegmentCrossing, ls, i, j, q) {
      var i: nat, j: nat :| CrossingAt(SegmentCrossing, ls, i, j, q);
      assert all[i] == ls[i] && all[j] == ls[j];
      assert CrossingAt(SegmentCrossing, all, i, j, q);
    }
    if exists i: nat :: i < n && SegmentCrossing(ls[i], preview) == Some(q) {
      var i: nat :| i < n && SegmentCrossing(ls[i], preview) == Some(q);
      assert all[i] == ls[i] && all[n] == preview;
      assert CrossingAt(SegmentCrossing, all, i, n, q);
    }
  }
}
