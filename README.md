# Pen tool editor model

A Dafny model of the editing core of `PenToolCanvas` in `pen.py`, a Tkinter editor for
paths made of anchors joined by cubic Bézier segments, with the canvas taken away. It covers
four things:

- the anchors and their handles;
- the selection and the drag flag;
- the undo history of full snapshots;
- the handlers for a click, a drag, a release, the delete key and undo.

The same model also covers the geometry those handlers use:
- Bézier evaluation and its derivatives;
- the Newton search for the parameter closest to the pointer;
- the two hit tests.

The model has four modules, each in its own file:

- `Geometry` (`geometry.dfy`) covers points and cubic segments, the Bernstein form
  `bezier_point` evaluates, its first and second derivatives, and `find_closest_t`'s Newton
  rounds. Coordinates are exact reals. `distance` is kept squared, so `distance(p, q) < r`
  becomes `Dist2(p, q) < r * r` for `r > 0`.
- `Path` (`path.dfy`) is the anchor list as a value. Each edit is a function from the old list
  to the new one: add, delete, split, drag and the neighbour rule. The two hit tests are
  scans, each with a lemma that characterises its result.
- `History` (`history.dfy`) covers snapshots as `push_history` writes them, the rebuild of
  `create_point_from_data`, and `undo` on values. It proves the round trips between recording
  and rebuilding.
- `Editor` (`editor.dfy`) is the mutable editor:
  - `Anchor` is a class whose fields the handlers update in place.
  - `PenTool` holds the `points`, `selected`, `dragging` and `history` fields.
  - Each handler is a method whose postcondition ties the new state, seen through
    `Snap()` (the anchors' values in path order), to the `Path` and `History` functions of
    the old state.
  - `Valid()` states that no anchor object appears twice in the path. Every method that
    changes `points` preserves it.

Behaviour of `pen.py` that the model follows and that a reader might not expect:

- Splitting a segment (`insert_point_on_segment`) does not retrace the old curve. The handles
  it computes are single linear interpolations, not a de Casteljau subdivision. The new anchor
  does lie on the old curve, and the two outer end points stay where they were.
  `Path.InsertDoesNotRetrace` shows a concrete path where the left half, at its midpoint, is
  not the old curve at the matching parameter, as a shape-preserving split would be.
- `add_point` moves the previous last anchor's outgoing handle onto the new anchor. So even
  the first segment is not a straight line traversed uniformly: two clicks at (0,0) and
  (100,0) give a segment whose midpoint is (87.5, 0) (`Path.AddTwoPointsMidpoint`).
- `undo` does not clear the selection. After an undo that rebuilds the anchors, `selected`
  may name an anchor object that is no longer in the path. `delete_selected` and `on_drag`
  would then fail in `list.index`, so the model states "the selected anchor is in the path"
  as their precondition.
- The selection holds the anchor object itself, not an index.
- `find_nearest_segment` returns the pair `(i, i+1)`, which is always truthy. So the
  `if segment:` of `on_click` takes the split branch for segment 0 too. The model returns
  the left index `i` as `Some(i)`.

## Model

| member | source | states |
|---|---|---|
| Geometry.Dist2 | pen.py:159-160 | the squared distance is never negative |
| Geometry.BelowIsDistanceBelow | pen.py:335 | for a distance d >= 0, comparing its square with the square of the bound decides `d < bound` exactly, so `Below` on squared distances is the test `dist < threshold` |
| Geometry.WithinIsDistanceBelow | pen.py:148-154 | `Within(p, q, radius)` holds exactly when the distance whose square is Dist2(p, q) is below the radius, as in `distance(...) < radius` of `find_nearest_point` |
| Geometry.Clamp01 | pen.py:362 | `max(0, min(1, t))` lies in [0,1], is t inside [0,1], 0 below it and 1 above it |
| Geometry.BezierPoint | pen.py:291-301 | the curve starts at the first anchor (t = 0) and ends at the second (t = 1) |
| Geometry.BezierIsDeCasteljau | pen.py:291-301 | the Bernstein form equals the independent de Casteljau construction by repeated interpolation of the control polygon, for every t |
| Geometry.BezierDerivative | pen.py:370-379 | at t = 0 and t = 1 the derivative is three times the outgoing and incoming handle offsets |
| Geometry.BezierSecondDerivative | pen.py:382-389 | the second derivative at both ends, in terms of the control points |
| Geometry.Taylor1 | pen.py:370-389 | an exact third-order Taylor identity for each coordinate: the formulas of `bezier_derivative` and `bezier_second_derivative` are the first and second derivatives of `bezier_point` |
| Geometry.NewtonStep | pen.py:347-362 | one Newton round is None exactly when the denominator is zero (the loop breaks); otherwise the new t lies in [0,1] |
| Geometry.ClosestT | pen.py:343-362 | after n rounds from a start in [0,1] the parameter is still in [0,1]; after zero rounds it is the start |
| Geometry.FindClosestT | pen.py:343-367 | the loop returns the parameter after `iterations` rounds from 0.5, stopping at a zero denominator; it lies in [0,1]; the distance returned is the squared distance from the point to the curve there |
| Path.Fresh | pen.py:8-14 | a new anchor has both handles on its position and is unlocked |
| Path.Segment | pen.py:291-301 | segment i runs from anchor i's position to anchor i+1's position |
| Path.NumSegments | pen.py:329 | a path of n > 0 anchors has n - 1 segments; an empty one has none |
| Path.AddPoint | pen.py:98-105 | one anchor more; the new last anchor is a fresh one at the point; the old last anchor's outgoing handle is the point; nothing else changes |
| Path.AddTwoPointsMidpoint | pen.py:98-105 | two added anchors at (0,0) and (100,0) give a first segment whose midpoint is (87.5, 0) |
| Path.Collapse | pen.py:113-119 | the previous anchor's outgoing handle and the next anchor's incoming handle move onto their own positions; every other anchor is unchanged |
| Path.DeleteAt | pen.py:113-121 | one anchor fewer; the anchors before and after the deleted one keep their order, with the two neighbours' facing handles collapsed |
| Path.SplitAnchor | pen.py:401-412 | the new anchor is on the old curve at t and unlocked; its handles are the interpolations the source computes |
| Path.InsertOnSegment | pen.py:392-424 | one anchor more; the new anchor at i+1 lies on the old curve at t; anchor i's outgoing handle and the old anchor i+1's incoming handle are re-interpolated; every other anchor keeps its place |
| Path.InsertKeepsEndsAndStartTangent | pen.py:401-424 | after a split the outer ends stay put; both halves meet at the curve point at t; the left half starts with the old start tangent scaled by t |
| Path.InsertDoesNotRetrace | pen.py:404-422 | on a concrete path and t = 1/2, the left half at its midpoint is not the old curve at 1/4, the point a shape-preserving split would put there |
| Path.DragPart | pen.py:434-467 | dragging the anchor moves it to the pointer and keeps both handle offsets; dragging a handle puts it at the pointer and, unless the anchor is locked, reflects the other handle through the anchor; the lock flag is kept |
| Path.UpdateNeighbors | pen.py:474-492 | only the previous anchor's outgoing handle and the next anchor's incoming handle change: each becomes the current anchor's handle plus 0.3 times the offset between the two positions |
| Path.Drag | pen.py:429-470 | one drag event changes the dragged anchor as DragPart does. The previous anchor's outgoing handle becomes the dragged anchor's new incoming handle plus 0.3 times the offset between their positions, and the next anchor's incoming handle becomes the new outgoing handle plus 0.3 times that offset. Nothing else changes in the neighbours; positions and lock flags of all other anchors stay |
| Path.DragHandleMakesTangentContinuous | pen.py:447-470 | dragging a handle of an unlocked interior anchor makes the tangent continuous across that anchor |
| Path.DragAnchorKeepsMirror | pen.py:434-446 | dragging an anchor whose handles are mirrored through it keeps them mirrored |
| Path.HandleScan | pen.py:147-151 | a hit of the first loop is an `'in'` or `'out'` hit at an index from the start index on |
| Path.PositionScan | pen.py:153-155 | a hit of the second loop is an `'anchor'` hit at an index from the start index on |
| Path.NearestPoint | pen.py:145-156 | a hit names an anchor of the path; which one, and which part, is stated by Path.NearestPointSpec |
| Path.HandleScanSpec | pen.py:147-151 | the first loop finds nothing exactly when no handle is near; otherwise it returns the first anchor with a near handle, `'in'` when its incoming handle is near, else `'out'` |
| Path.PositionScanSpec | pen.py:153-155 | the second loop finds nothing exactly when no position is near; otherwise it returns the first near position |
| Path.NearestPointSpec | pen.py:145-156 | `find_nearest_point` returns None exactly when nothing is within the radius. A handle hit is the first anchor with a near handle, `'in'` before `'out'`. An `'anchor'` hit happens only when no handle anywhere is near, and is the first near position |
| Path.FreshAnchorHitsHandle | pen.py:145-156 | a click on an anchor whose incoming handle still sits on it selects a handle at that anchor or an earlier one, never the anchor itself |
| Path.ScanBelow | pen.py:329-338 | the kept segment is one of those scanned |
| Path.ScanBelowSpec | pen.py:329-338 | the scan keeps nothing exactly when no segment is below the threshold. Otherwise it keeps one below the threshold, no farther than any other below it, and strictly nearer than every earlier one, so ties go to the earliest |
| Path.NearestSegment | pen.py:324-340 | no segment means t = 0; a segment is a valid left index with t in [0,1] |
| Path.NearestSegmentSpec | pen.py:324-340 | `find_nearest_segment` is None exactly when no segment's closest point is within the threshold. Otherwise it gives the nearest segment within it, the earliest of equally near ones, and the t that `find_closest_t` finds on it |
| History.RecordAnchor | pen.py:164 | the recorded tuple holds the anchor's position and both handles |
| History.FromEntry | pen.py:176-180 | the rebuilt anchor has the recorded position and handles and is unlocked |
| History.Record | pen.py:163-164 | a snapshot has one entry per anchor, in path order |
| History.Restore | pen.py:172 | the rebuild has one anchor per entry, in order |
| History.RestoreRecord | pen.py:163-180 | rebuilding a recorded path gives back every position and handle; only the lock flags are lost |
| History.RecordRestore | pen.py:163-180 | recording a rebuilt snapshot gives back the snapshot |
| History.Undo | pen.py:167-173 | on an empty history nothing changes. Otherwise the newest snapshot is dropped; with one left, the anchors are rebuilt from it; with none left, they stay as they are |
| History.UndoAfterPush | pen.py:163-173 | a push followed by an undo restores the history, and the anchors of the previous snapshot when there is one |
| History.UndoRestoresPreviousCommit | pen.py:163-173 | after a commit, an undo brings back the anchors of the previous commit, lock flags cleared |
| History.UndoAtFloor | pen.py:167-173 | with at most one snapshot, undo leaves the anchors and empties the history, and a second undo changes nothing |
| Editor.Anchor.constructor | pen.py:8-14 | `AnchorPoint(x, y)` is a fresh anchor at (x, y) |
| Editor.Anchor.Follow | pen.py:434-467 | the anchor's new value is DragPart of its old value for the pointer |
| Editor.IndexOf | pen.py:113 | `list.index`: the first position of the anchor in the list |
| Editor.PenTool.constructor | pen.py:41-50 | `init_data`: no anchors, no selection, not dragging, empty history |
| Editor.PenTool.PushHistory | pen.py:163-164 | the record of the current anchors is appended; nothing else changes |
| Editor.PenTool.CreatePointFromData | pen.py:176-180 | a new anchor object whose value is FromEntry of the entry |
| Editor.PenTool.Rebuild | pen.py:172 | new, distinct anchor objects whose values are Restore of the snapshot |
| Editor.PenTool.Undo | pen.py:167-173 | the new anchors and history are History.Undo of the old ones; the anchors are new objects when rebuilt and the same list otherwise |
| Editor.PenTool.OnRelease | pen.py:93-95 | the drag ends and the current anchors are committed |
| Editor.PenTool.AddPoint | pen.py:98-105 | the anchors become Path.AddPoint of the old ones, with a new object appended and the old objects kept |
| Editor.PenTool.DeleteSelected | pen.py:110-125 | with nothing selected nothing changes. Otherwise the selected object leaves the list, the anchors become DeleteAt at its index, the selection is cleared and the result is committed |
| Editor.PenTool.DeleteAndCommit | pen.py:113-125 | the selected branch of `delete_selected` on a given index |
| Editor.PenTool.Select | pen.py:122 | the selection is set and the anchors are untouched |
| Editor.PenTool.RemoveAt | pen.py:113-121 | the object at the index leaves the list and the anchors become DeleteAt of the old ones |
| Editor.PenTool.CollapseNeighbors | pen.py:113-119 | the anchors become Collapse of the old ones |
| Editor.PenTool.FindNearestPoint | pen.py:145-156 | the loops return the object and part of the hit NearestPoint gives, and None exactly when it gives None; nothing changes |
| Editor.PenTool.FindNearestSegment | pen.py:324-340 | the loop returns exactly NearestSegment of the anchors |
| Editor.PenTool.InsertPointOnSegment | pen.py:392-425 | the anchors become InsertOnSegment at the t found for the pointer; the object list is the old one with one new object inserted at i+1, every old object kept in its order; the new object is selected |
| Editor.PenTool.SplitAt | pen.py:401-424 | at a given t the anchors become InsertOnSegment, with a new object inserted after anchor i |
| Editor.PenTool.InsertAt | pen.py:424 | `list.insert` of a new object adds its value at that place and keeps the anchors distinct |
| Editor.PenTool.NewSplitAnchor | pen.py:401-412 | the new object's value is SplitAnchor of the segment |
| Editor.PenTool.UpdateNeighborCurves | pen.py:474-492 | the anchors become UpdateNeighbors at the current anchor's index |
| Editor.PenTool.MovePart | pen.py:433-467 | only the dragged anchor's value changes, to DragPart of its old value |
| Editor.PenTool.OnDrag | pen.py:429-470 | while dragging with a selection the anchors become Path.Drag at the selected anchor's index and part; otherwise nothing changes |
| Editor.PenTool.OnClick | pen.py:304-321 | three outcomes. A hit selects that object and part, starts a drag and changes nothing else. Else a segment within the threshold is split at the t found: the old objects stay in order around one new object, which is selected, and the result is committed. Else one new object is appended after the old ones and the result is committed, with the selection and the drag flag untouched |
| Editor.PenTool.StartDrag | pen.py:307-310 | the hit becomes the selection and the drag starts |
| Editor.PenTool.ClickAwayFromAnchors | pen.py:313-321 | the split-or-append half of `on_click`, with the `segment, t` it found equal to NearestSegment of the old anchors. On a split the old objects stay in order around one new selected object at i+1, whose values are InsertOnSegment; on an append one new object follows the old ones, with values Path.AddPoint; either result is committed |
| Editor.PenTool.SplitAndCommit | pen.py:315-316 | split at the t found for the pointer: the old objects stay in order around one new object at i+1, which is selected; the result is committed |
| Editor.PenTool.AppendAndCommit | pen.py:320-321 | the old objects stay in order with one new object after them, the values become Path.AddPoint of the old ones, the result is committed and the selection is untouched |

## Left out

- The Tkinter window: the canvas, the control panel, the sliders, the colour pickers, the style
  fields and `redraw_canvas`. None of them changes the path.
- `save_image` is left out. It reads screen coordinates and writes an image file, which is I/O
  outside the path model.
- Floating point. Coordinates and parameters are exact reals, so `**0.5` and `math.hypot` do not
  appear. Distances compare squared, which orders them the same way as their square roots.
- `point_to_line_distance` is left out. Nothing in the file calls it.
- `current_segment` is left out. `init_data` sets it and nothing reads it.
- The event objects: a handler takes the pointer coordinates `(ex, ey)` in place of
  `event.x` and `event.y`.
- Editor.PenTool.DeleteSelected: the stale-selection case, where `list.index` raises
  `ValueError`, is a precondition rather than a modelled failure.
- Editor.PenTool.OnDrag: the same holds for a stale selection at the `list.index` of
  `update_neighbor_curves`.
- Editor.PenTool.InsertPointOnSegment: takes the left index of the segment rather than the pair
  `(i, i+1)`.
- Editor.PenTool.SplitAt: computes both new facing handles before it writes either. The
  source computes anchor i+1's new incoming handle after it has written anchor i's outgoing
  handle, but that value reads only the new anchor and anchor i+1, so the result is the same.
- The lock flag is never set anywhere in `pen.py`. The model carries it, because the drag
  rules read it.
