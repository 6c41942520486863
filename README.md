# Canvas segments: intersections and collapse

This project models the logic of a small drawing canvas. The user draws
straight segments with two left clicks. While a segment is being drawn, the
canvas marks every point where two segments cross. A right click abandons
the segment in progress. A "collapse" animation then shrinks every
segment toward its midpoint, frame by frame, until none is left.

The model has three parts:

- **Geometry** (`geometry.dfy`, after `calculateIntersection`). Segment
  intersection in parametric form. The determinant `d` is the cross product
  of the two directions. The parameter `s` runs along the second segment
  and `t` along the first; both range checks are inclusive. The function is
  proved to return exactly the common point of two non-parallel closed
  segments. It is symmetric, and it returns nothing for parallel or
  collinear segments.
- **The canvas** (`canvas.dfy`, class `Canvas`). Its fields are
  `isDrawStart`, `drawedLines` and the two temporary positions. It also
  has a flag that stands for a pending animation frame. The event handlers
  update these fields in place. `DrawIntersections` is the nested index
  loop. `Animate` is one frame of the collapse: it moves the ends of each
  line and splices collapsed lines out of the array while it walks that
  same array. `interaction.dfy` gives the same handlers as a state machine
  on values, for reasoning about whole gestures. `pair_scan.dfy` specifies
  which pairs the scan tests, and which markers it draws.
- **Collapse** (`lines.dfy`, `collapse.dfy`). `Line` holds the centre
  (`getCenterPosition`), the unit vector (`getVector`) and the move of one
  frame. `Frame` states what one run of `animate` does to the array. Among
  other things, it keeps the JavaScript behaviour of `splice` inside
  `forEach`: the line right behind a spliced one is passed over, unmoved,
  for that frame. The lemmas on `Frame` cover:
  - which lines survive a frame;
  - that survivors keep their order;
  - that the animation ends for lines of non-zero length, and never ends
    once a zero-length line is present.

Numbers are exact reals. `Math.sqrt` is a parameter `sqrt` with the
precondition `IsSqrt(sqrt)`: it returns the non-negative root of every
non-negative real. The distance moved per frame is the source's
`lineStep = 5`.

Some behaviours of the code differ from what one might expect of a
shrink-to-the-middle animation; the model follows the code:

- One might expect the segment (0,0)-(20,0) to take two frames: 10 units
  from each end to the centre, 5 units per frame. The code splices it in
  the first frame. After the move, its start (5,0) already satisfies
  `start.y >= center.y` (see `HorizontalLineGoneAfterOneFrame`). In fact,
  every horizontal or vertical line goes in the first frame that reaches
  it.
- One might expect every frame to shorten every remaining segment. A
  segment that runs up-left with a half-length r below one step (5 units)
  jumps past its centre and comes out turned round with half-length
  5 - r (`SurvivesIff`, `MovedHalfLength`). For r < 2.5 that is longer
  than before (see `ShortLineGrows`), for r = 2.5 it is the same, and for
  2.5 < r < 5 it is shorter (see `MidLineShrinksTurnedRound`). An up-left
  segment with r of at least 5 is spliced.
- A zero-length segment makes the code divide 0 by 0 when it normalises
  the direction. Every comparison of the removal test is then false, so
  such a line is never spliced. The model keeps it unchanged, and proves
  that the line then keeps the animation running forever.

## Model

| member | source | states |
|---|---|---|
| Geometry.CalculateIntersection | src/utils.js:1-35 | A zero determinant (parallel or collinear, overlapping included) gives no point. A point is returned only when both `s` and `t` lie in the closed range [0, 1]. The returned point is `p1 + t*(p2 - p1)`. So when `s` is out of range the result is no point, whatever `t` would be. |
| Geometry.OnBothSegments | src/utils.js:21-29 | The point at parameter `t` on the first segment is the point at parameter `s` on the second. |
| Geometry.ParametersUnique | src/utils.js:13-27 | For non-parallel segments, any two parameters that reach a common point are `t` and `s` (Cramer's rule). |
| Geometry.IntersectionIsCrossing | src/utils.js:1-35 | For non-parallel segments, the result is `Some(q)` exactly when `q` lies on both closed segments. Both directions are proved. |
| Geometry.NoCrossingNoResult | src/utils.js:20-34 | Segments with no common point give no result. |
| Geometry.Symmetric | src/utils.js:8-29 | Swapping the two segments gives the same result: the same point, or no point in both orders. |
| Geometry.SharedEndpointIsHit | src/utils.js:24-29 | Non-parallel segments that share an endpoint are reported to meet there, because the range checks are inclusive. |
| Geometry.DiagonalsCross | src/utils.js:24-29 | (0,0)-(10,10) against (0,10)-(10,0) gives (5,5). |
| Geometry.CollinearDisjointMiss | src/utils.js:13-20 | Disjoint collinear segments give no point. |
| Geometry.CollinearOverlapMiss | src/utils.js:13-20 | Overlapping collinear segments also give no point. |
| Geometry.OutOfRangeMiss | src/utils.js:24-34 | Segments whose supporting lines cross outside the first segment give no point. |
| Lines.Line.CenterPosition | src/index.js:154-164 | The centre is equally far, in x and in y, from the start and from the end. |
| Lines.HalfLength | src/index.js:166-173 | The norm computed by `getVector` is positive for a line of non-zero length, and its square is the squared distance from the start to the centre. |
| Lines.GetVectorIsUnitTowardCenter | src/index.js:166-178 | `getVector` returns a vector of length 1 that is the positive multiple `(center - start) / norm`. |
| Lines.GetVector | src/index.js:166-178 | `getVector`: `(center - start)` divided by its norm; its meaning is stated by `GetVectorIsUnitTowardCenter`. |
| Lines.Move | src/index.js:107-114 | The start moves by `v * lineStep` and the end by `-v * lineStep`; stated by `MoveKeepsCenter` and `MoveScalesToCenter`. |
| Lines.PastCenter | src/index.js:116-121 | The splice test against the centre taken before the move; stated by `PastCenterIff`. |
| Lines.MoveKeepsCenter | src/index.js:107-114 | Moving the start by `v*lineStep` and the end back by the same amount leaves the centre unchanged. |
| Lines.PastCenterIff | src/index.js:116-121 | For any move, the removal test fails exactly when the moved line still runs strictly right and strictly down. |
| Lines.MoveScalesToCenter | src/index.js:107-114 | One frame's move scales `center - start` by `(r - lineStep)/r`, where `r` is the half-length. |
| Lines.SurvivesIff | src/index.js:107-123 | A line survives its move exactly when it runs down-right with a half-length above `lineStep`, or runs up-left with a half-length below `lineStep`. |
| Lines.MovedHalfLength | src/index.js:107-114 | After the move, the half-length is the absolute value of `r - lineStep`. |
| Lines.AxisAlignedLineVanishes | src/index.js:116-122 | A horizontal or vertical line is spliced in the first frame that reaches it. |
| Collapse.Frame | src/index.js:94-124 | One frame never lengthens the array. It keeps every line of non-zero length at non-zero length. |
| Collapse.Frames | src/index.js:126-132 | Repeated frames, stopping once the array is empty (the frame loop cancelled at that point); never more lines than at the start. |
| Collapse.FrameStepKeep | src/index.js:97-124 | A zero-length line visited at index k stays where it is, and the visit moves on to k+1. |
| Collapse.FrameStepMove | src/index.js:97-124 | A line at index k that is moved but not spliced is replaced by its moved copy, and the visit moves on to k+1. |
| Collapse.FrameStepSplice | src/index.js:97-124 | A line spliced at index k is removed. The next visit is at k+1 of the shortened array, which skips the line that slid into k. |
| Collapse.Centers | src/index.js:154-164 | The list of centres has one centre per line, in order. |
| Collapse.FrameKeepsCentersInOrder | src/index.js:97-124 | The centres of the lines after a frame are a subsequence of the centres before it. |
| Collapse.Origins | src/index.js:97-124 | For each line after a frame, the index of the old line it comes from (its contract is stated by `FrameKeepsLinesInOrder`). |
| Collapse.FrameKeepsLinesInOrder | src/index.js:97-124 | A frame creates no line and reorders none. Each line after the frame is the old line at its origin index, either unchanged or moved without meeting the splice test. The origin indices strictly increase. Every old line that is left out met the splice test. |
| Collapse.DerivedRunsDownRight | src/index.js:107-121 | A line that was moved and kept runs strictly down-right. |
| Collapse.FrameWithoutCollapse | src/index.js:97-124 | When no line collapses, every line is moved and none is removed. |
| Collapse.FrameSkipsFollower | src/index.js:97-124 | If the first line is spliced, the second comes out of the frame exactly as it went in. |
| Collapse.SurvivorsRunDownRight | src/index.js:97-124 | Every line leaving a frame is a line of the old array, or runs strictly down-right (with `FrameKeepsLinesInOrder` and `DerivedRunsDownRight`: an old line passed over unchanged, or a moved line that runs down-right). |
| Collapse.FrameKeepsZeroLength | src/index.js:97-124 | A frame never removes a zero-length line. |
| Collapse.ZeroLengthLineNeverLeaves | src/index.js:94-133 | A zero-length line outlives any number of frames, so once one is drawn the animation keeps rescheduling itself. |
| Collapse.Budget | src/index.js:107-123 | Each line of non-zero length has a frame budget of at least 1. |
| Collapse.Potential | src/index.js:97-124 | The sum of the budgets is at least the number of lines. |
| Collapse.AdvanceLowersBudget | src/index.js:107-123 | A line that is moved and kept stays of non-zero length, and its budget drops. |
| Collapse.FrameLowersPotential | src/index.js:97-124 | A frame on a non-empty array of non-zero-length lines lowers the potential, and no frame raises it. |
| Collapse.CollapseTerminates | src/index.js:94-133 | After as many frames as the potential, lines of non-zero length are all gone, so no frame is scheduled after that. |
| Collapse.HorizontalLineGoneAfterOneFrame | src/index.js:107-122 | (0,0)-(20,0) is spliced in its first frame. |
| Collapse.ShortLineGrows | src/index.js:107-122 | (1.2,1.6)-(0,0) survives its frame as (-1.8,-2.4)-(3,4); its half-length goes from 1 to 4. |
| Collapse.MidLineShrinksTurnedRound | src/index.js:107-122 | (4.8,6.4)-(0,0) survives its frame as (1.8,2.4)-(3,4); its half-length goes from 4 to 1. |
| PairScan.SegmentCrossing | src/index.js:42-47 | `calculateIntersection` on the start and end of lines i and j; stated by the Geometry rows. |
| PairScan.ScanTestsEachPairOnce | src/index.js:35-55 | The scan over n lines tests exactly the pairs i < j < n. It tests each of them once, n(n-1)/2 tests in all, and none below two lines. |
| PairScan.RowMarkersSound | src/index.js:41-53 | Every marker drawn in row i comes from a pair (i, b) that crosses there. |
| PairScan.RowMarkersComplete | src/index.js:41-53 | Every crossing of line i with a later line in the row is drawn. |
| PairScan.ScanMarkersSound | src/index.js:40-54 | Every marker of the first i rows comes from a crossing pair a < b with a < i. |
| PairScan.ScanMarkersComplete | src/index.js:40-54 | Every crossing pair of the first i rows is drawn. |
| PairScan.MarkedIffSomePairCrosses | src/index.js:35-55 | A point is marked exactly when some pair i < j of lines crosses there, and there are never more markers than tests. |
| Interaction.Handle | src/index.js:57-88 | The committed lines are either unchanged, or (on a click while drawing) extended by exactly the line from the stored start to the stored end. A click toggles the drawing flag. A right click clears it and keeps the lines. A mouse move keeps the flag and the lines, and changes nothing at all while idle. |
| Interaction.Shown | src/index.js:73-88 | The markers a handler draws: those of the committed lines plus the preview for a move while drawing, those of the committed lines for a right click, none otherwise; stated by `PreviewMarksCrossings` and the canvas methods. |
| Interaction.ReplayOnlyAppends | src/index.js:57-88 | Any run of events only appends to the committed lines, and committing each line takes two clicks. |
| Interaction.LinesAddedBoundedByClicks | src/index.js:57-67 | The lines added by a run of events number at most half its clicks, rounded up. |
| Interaction.MovesWhileDrawing | src/index.js:69-72 | While drawing, mouse moves only record the last position as the end. |
| Interaction.ReplayAppend | src/index.js:57-88 | Replaying two runs of events one after the other is the same as replaying them joined. |
| Interaction.DrawGesture | src/index.js:57-72 | Click at a, move, click at c: this commits exactly the line from a to the last mouse position (or to the previous end when there was no move). The position c is not used. |
| Interaction.ClickClickEndsAtOrigin | src/index.js:9-10 | On a new canvas, two clicks without a move commit a line that ends at (0,0). |
| Interaction.CancelledGesture | src/index.js:83-88 | A right click during a gesture leaves the committed lines unchanged and ends drawing. |
| Interaction.PreviewMarksCrossings | src/index.js:69-81 | While drawing, a mouse move marks the crossings of two committed lines and the crossings of the preview line with a committed line, and nothing else. |
| CanvasModel.Canvas.constructor | src/index.js:4-16 | A new canvas is idle, has no lines, has both positions at the origin, and has no frame scheduled. |
| CanvasModel.Canvas.DrawIntersections | src/index.js:35-55 | The loop tests exactly `Pairs(n)` in order and draws exactly `Markers(lines)` (see the PairScan rows). |
| CanvasModel.Canvas.ScanRow | src/index.js:41-53 | The inner loop tests pairs (i, i+1) to (i, n-1) and draws the markers of that row. |
| CanvasModel.Canvas.OnClick | src/index.js:57-67 | While idle, a click starts drawing, records the start and keeps the lines. While drawing, it stops drawing and appends the line from the stored start to the stored end. The end position is unchanged either way. |
| CanvasModel.Canvas.OnMouseMove | src/index.js:69-81 | While drawing, only the end position changes, and the markers are those of the committed lines plus the preview. While idle, nothing changes and nothing is drawn. |
| CanvasModel.Canvas.OnRightClick | src/index.js:83-88 | Drawing stops, the lines and positions are unchanged, and the markers of the committed lines are drawn. |
| CanvasModel.Canvas.OnCollapse | src/index.js:90-137 | A frame is requested, and the drawing state is unchanged. |
| CanvasModel.Canvas.Animate | src/index.js:94-133 | The array after the in-place `forEach` and splices is `Frame` of the array before. A further frame stays scheduled exactly when lines remain. The drawing flag and positions are unchanged. |

## Left out

- Rendering is not modelled: `clear`, `clearRect`, `Line.draw`, `Point.draw` and its `Math.round`. The scan returns the list of marker positions instead of drawing them.
- DOM plumbing is not modelled: `getClientOffset`, the event-listener wiring and `preventDefault`. Handlers take points already in surface coordinates.
- Frame scheduling is not modelled: `requestAnimationFrame` and `cancelAnimationFrame`. The flag `animationScheduled` stands for a pending frame, and each call of `Animate` is one frame. Several `onCollapse` calls would run several interleaved frame loops; the model has one.
- IEEE floating point is not modelled: the model uses exact reals. In particular, the rounding of `calculateIntersection` near its range boundaries is not captured.
- `Math.sqrt` is not modelled: it is the parameter `sqrt`, required to return the exact root.
- Lines.GetVector: for a zero-length line the source returns a NaN vector and turns the line's coordinates into NaN. The model requires a line of non-zero length. The frame keeps a zero-length line as it is, because no comparison with NaN is true and the line is never spliced. The NaN coordinates are not modelled.
- Aliasing of position records is not modelled. A committed line shares its start and end objects with `temporaryStartPosition` and `temporaryEndPosition`. Two lines committed without a mouse move between them share one end object. `animate` changes these objects in place, so it can move a shared end twice in a frame and also move the temporary positions. The model treats positions as values.
- The `Line extends Canvas` and `Point extends Canvas` inheritance is not modelled; it serves only to reach the drawing context.
- CanvasModel.Canvas.ScanRow is the inner loop of `drawIntersections`, written as a method of its own. The list of tested pairs that it and `DrawIntersections` return is ghost: the source returns nothing and uses it only to state which pairs are tested.
- Animate walks a local copy of the array and writes it back at the end. Since nothing else runs during a frame, the final array is the same.
