/** The anchor list of the pen tool as a value: each edit of pen.py as a function from the old
    list to the new one, and the two hit-test scans as functions that the editor's loops meet. */
module Path {
  import opened Wrappers
  import opened Geometry

  /** One anchor (pen.py:7-14): position, incoming handle, outgoing handle, lock flag. */
  datatype AnchorState = AnchorState(pos: Point, controlIn: Point, controlOut: Point, locked: bool)

  /** The part of an anchor a selection names: `'in'`, `'out'` or `'anchor'`. */
  datatype Part = In | Out | AnchorPart

  /** A hit of `find_nearest_point`: the anchor's index in the list and the part hit. */
  datatype Hit = Hit(index: nat, part: Part)

  /** A new anchor, `AnchorPoint(x, y)` (pen.py:8-14): both handles on the anchor, unlocked. */
  function Fresh(p: Point): (a: AnchorState)
    ensures a.pos == p && a.controlIn == p && a.controlOut == p && !a.locked
  {
    AnchorState(p, p, p, false)
  }

  /** The cubic between anchors i and i+1 (pen.py:291-301). */
  function Segment(s: seq<AnchorState>, i: nat): (c: Cubic)
    requires i + 1 < |s|
    ensures c.p0 == s[i].pos && c.p3 == s[i + 1].pos
  {
    Cubic(s[i].pos, s[i].controlOut, s[i + 1].controlIn, s[i + 1].pos)
  }

  /** `range(len(points) - 1)`: the number of segments. */
  function NumSegments(s: seq<AnchorState>): (n: nat)
    ensures n + 1 == |s| || (n == 0 && |s| == 0)
  {
    if |s| == 0 then 0 else |s| - 1
  }

  // ---------------------------------------------------------------------------------------
  // Edits
  // ---------------------------------------------------------------------------------------

  /** `add_point` (pen.py:98-105): a fresh anchor at p is appended and the previous last
      anchor's outgoing handle moves to p; nothing else changes. */
  function AddPoint(s: seq<AnchorState>, p: Point): (r: seq<AnchorState>)
    ensures |r| == |s| + 1
    ensures r[|s|] == Fresh(p)
    ensures |s| > 0 ==> r[|s| - 1] == s[|s| - 1].(controlOut := p)
    ensures forall i :: 0 <= i < |s| - 1 ==> r[i] == s[i]
  {
    if |s| == 0 then [Fresh(p)]
    else s[..|s| - 1] + [s[|s| - 1].(controlOut := p), Fresh(p)]
  }

  /** The first half of `delete_selected` (pen.py:113-119) around the anchor at k: the
      previous anchor's outgoing handle and the next anchor's incoming handle collapse onto
      their own positions. */
  function Collapse(s: seq<AnchorState>, k: nat): (r: seq<AnchorState>)
    requires k < |s|
    ensures |r| == |s| && r[k] == s[k]
    ensures k > 0 ==> r[k - 1] == s[k - 1].(controlOut := s[k - 1].pos)
    ensures k < |s| - 1 ==> r[k + 1] == s[k + 1].(controlIn := s[k + 1].pos)
    ensures forall i :: 0 <= i < |s| && i + 1 != k && i != k + 1 ==> r[i] == s[i]
  {
    var s1 := if k > 0 then s[k - 1 := s[k - 1].(controlOut := s[k - 1].pos)] else s;
    if k < |s| - 1 then s1[k + 1 := s1[k + 1].(controlIn := s1[k + 1].pos)] else s1
  }

  /** `delete_selected` (pen.py:113-121) on the anchor at k: the neighbours' facing handles
      collapse, then the anchor is removed. */
  function DeleteAt(s: seq<AnchorState>, k: nat): (r: seq<AnchorState>)
    requires k < |s|
    ensures |r| == |s| - 1
    ensures forall i {:trigger r[i]} :: 0 <= i < k - 1 ==> r[i] == s[i]
    ensures k > 0 ==> r[k - 1] == s[k - 1].(controlOut := s[k - 1].pos)
    ensures k < |s| - 1 ==> r[k] == s[k + 1].(controlIn := s[k + 1].pos)
    ensures forall i {:trigger r[i]} :: k < i < |r| ==> r[i] == s[i + 1]
  {
    var c := Collapse(s, k);
    c[..k] + c[k + 1..]
  }

  /** The anchor that `insert_point_on_segment` (pen.py:401-412) creates on segment i at t. */
  function SplitAnchor(s: seq<AnchorState>, i: nat, t: real): (a: AnchorState)
    requires i + 1 < |s|
    ensures a.pos == BezierPoint(Segment(s, i), t) && !a.locked
    ensures a.controlIn == Lerp(s[i].controlOut, s[i + 1].controlIn, t)
    ensures a.controlOut == Lerp(s[i + 1].controlIn, s[i + 1].pos, t)
  {
    AnchorState(BezierPoint(Segment(s, i), t),
                Lerp(s[i].controlOut, s[i + 1].controlIn, t),
                Lerp(s[i + 1].controlIn, s[i + 1].pos, t),
                false)
  }

  /** `insert_point_on_segment` (pen.py:392-424) on segment i at parameter t: the new anchor
      goes in at i+1 on the old curve; anchor i's outgoing handle and anchor i+1's incoming
      handle are re-interpolated; every other anchor is unchanged. */
  function InsertOnSegment(s: seq<AnchorState>, i: nat, t: real): (r: seq<AnchorState>)
    requires i + 1 < |s|
    ensures |r| == |s| + 1
    ensures forall j {:trigger r[j]} :: 0 <= j < i ==> r[j] == s[j]
    ensures r[i] == s[i].(controlOut := Lerp(s[i].pos, s[i].controlOut, t))
    ensures r[i + 1] == SplitAnchor(s, i, t) && r[i + 1].pos == BezierPoint(Segment(s, i), t)
    ensures r[i + 2] == s[i + 1].(controlIn := Lerp(SplitAnchor(s, i, t).controlIn, s[i + 1].controlIn, t))
    ensures forall j {:trigger r[j]} :: i + 2 < j < |r| ==> r[j] == s[j - 1]
  {
    var n := SplitAnchor(s, i, t);
    var p1 := s[i].(controlOut := Lerp(s[i].pos, s[i].controlOut, t));
    var p2 := s[i + 1].(controlIn := Lerp(n.controlIn, s[i + 1].controlIn, t));
    s[..i] + [p1, n, p2] + s[i + 2..]
  }

  /** The damping factor of `update_neighbor_curves` (pen.py:482-491). */
  const Damping: real := 0.3

  /** The drag rules of `on_drag` (pen.py:434-467) on one anchor, for the pointer at e.
      Dragging the anchor moves it and both handles by the same offset; dragging a handle puts
      it at e and, unless the anchor is locked, reflects the other handle through the anchor. */
  function DragPart(a: AnchorState, part: Part, e: Point): (r: AnchorState)
    ensures r.locked == a.locked
    ensures part == AnchorPart ==>
              r.pos == e && Sub(r.controlIn, r.pos) == Sub(a.controlIn, a.pos)
              && Sub(r.controlOut, r.pos) == Sub(a.controlOut, a.pos)
    ensures part == In ==>
              r.pos == a.pos && r.controlIn == e
              && (if a.locked then r.controlOut == a.controlOut
                  else Add(r.controlOut, e) == Scale(2.0, a.pos))
    ensures part == Out ==>
              r.pos == a.pos && r.controlOut == e
              && (if a.locked then r.controlIn == a.controlIn
                  else Add(r.controlIn, e) == Scale(2.0, a.pos))
  {
    match part
    case AnchorPart =>
      var d := Sub(e, a.pos);
      a.(pos := e, controlIn := Add(a.controlIn, d), controlOut := Add(a.controlOut, d))
    case In =>
      if a.locked then a.(controlIn := e)
      else a.(controlIn := e, controlOut := Sub(a.pos, Sub(e, a.pos)))
    case Out =>
      if a.locked then a.(controlOut := e)
      else a.(controlOut := e, controlIn := Sub(a.pos, Sub(e, a.pos)))
  }

  /** `update_neighbor_curves` (pen.py:474-492) around anchor k: only the previous anchor's
      outgoing handle and the next anchor's incoming handle change. */
  function UpdateNeighbors(s: seq<AnchorState>, k: nat): (r: seq<AnchorState>)
    requires k < |s|
    ensures |r| == |s| && r[k] == s[k]
    ensures k > 0 ==>
              r[k - 1] == s[k - 1].(controlOut := Add(s[k].controlIn, Scale(Damping, Sub(s[k].pos, s[k - 1].pos))))
    ensures k + 1 < |s| ==>
              r[k + 1] == s[k + 1].(controlIn := Add(s[k].controlOut, Scale(Damping, Sub(s[k + 1].pos, s[k].pos))))
    ensures forall j :: 0 <= j < |s| && j + 1 != k && j != k + 1 ==> r[j] == s[j]
  {
    var cur := s[k];
    var s1 := if k > 0
      then s[k - 1 := s[k - 1].(controlOut := Add(cur.controlIn, Scale(Damping, Sub(cur.pos, s[k - 1].pos))))]
      else s;
    if k < |s| - 1
    then s1[k + 1 := s1[k + 1].(controlIn := Add(cur.controlOut, Scale(Damping, Sub(s1[k + 1].pos, cur.pos))))]
    else s1
  }

  /** One drag event on part `part` of anchor k (pen.py:429-470). */
  function Drag(s: seq<AnchorState>, k: nat, part: Part, e: Point): (r: seq<AnchorState>)
    requires k < |s|
    ensures |r| == |s| && r[k] == DragPart(s[k], part, e)
    ensures k > 0 ==>
              r[k - 1] == s[k - 1].(controlOut := Add(r[k].controlIn, Scale(Damping, Sub(r[k].pos, s[k - 1].pos))))
    ensures k + 1 < |s| ==>
              r[k + 1] == s[k + 1].(controlIn := Add(r[k].controlOut, Scale(Damping, Sub(s[k + 1].pos, r[k].pos))))
    ensures forall j :: 0 <= j < |s| && j != k ==> r[j].pos == s[j].pos && r[j].locked == s[j].locked
    ensures forall j :: 0 <= j < |s| && j + 1 != k && j != k && j != k + 1 ==> r[j] == s[j]
  {
    UpdateNeighbors(s[k := DragPart(s[k], part, e)], k)
  }

  /** Dragging an unlocked handle of an interior anchor makes the curve's tangent continuous
      there: the segment ending at the anchor leaves with the tangent the next one starts with. */
  lemma DragHandleMakesTangentContinuous(s: seq<AnchorState>, k: nat, part: Part, e: Point)
    requires 0 < k < |s| - 1 && part != AnchorPart && !s[k].locked
    ensures var r := Drag(s, k, part, e);
            BezierDerivative(Segment(r, k - 1), 1.0) == BezierDerivative(Segment(r, k), 0.0)
  {
    var r := Drag(s, k, part, e);
    assert Add(r[k].controlIn, r[k].controlOut) == Scale(2.0, r[k].pos);
  }

  /** Dragging an anchor translates it rigidly, so an anchor whose handles were mirrored
      through it stays mirrored. */
  lemma DragAnchorKeepsMirror(s: seq<AnchorState>, k: nat, e: Point)
    requires k < |s| && Add(s[k].controlIn, s[k].controlOut) == Scale(2.0, s[k].pos)
    ensures var r := Drag(s, k, AnchorPart, e);
            Add(r[k].controlIn, r[k].controlOut) == Scale(2.0, r[k].pos)
  {
    var r := Drag(s, k, AnchorPart, e);
    assert Sub(r[k].controlIn, r[k].pos) == Sub(s[k].controlIn, s[k].pos);
    assert Sub(r[k].controlOut, r[k].pos) == Sub(s[k].controlOut, s[k].pos);
  }

  /** The segment split keeps the outer ends, puts the new anchor on the old curve, and gives the
      left half the start tangent of the old curve scaled by t. */
  lemma InsertKeepsEndsAndStartTangent(s: seq<AnchorState>, i: nat, t: real)
    requires i + 1 < |s|
    ensures var r := InsertOnSegment(s, i, t);
            Segment(r, i).p0 == s[i].pos
            && Segment(r, i).p3 == BezierPoint(Segment(s, i), t)
            && Segment(r, i + 1).p0 == BezierPoint(Segment(s, i), t)
            && Segment(r, i + 1).p3 == s[i + 1].pos
            && BezierDerivative(Segment(r, i), 0.0) == Scale(t, BezierDerivative(Segment(s, i), 0.0))
  {
    var r := InsertOnSegment(s, i, t);
    var a, b := s[i].pos, s[i].controlOut;
    assert Segment(r, i).p0 == a && Segment(r, i).p1 == Lerp(a, b, t);
    assert BezierDerivative(Segment(r, i), 0.0) == Scale(3.0, Sub(Lerp(a, b, t), a));
    assert BezierDerivative(Segment(s, i), 0.0) == Scale(3.0, Sub(b, a));
    LerpOffset(a, b, t);
  }

  /** The split does not retrace the curve: with the control polygon (0,0), (3,0), (3,0), (3,0)
      and t = 1/2, the left half at its midpoint is not the old curve at 1/4. */
  lemma InsertDoesNotRetrace()
    ensures var o := Point(0.0, 0.0);
            var p := Point(3.0, 0.0);
            var s := [AnchorState(o, o, p, false), AnchorState(p, p, p, false)];
            BezierPoint(Segment(InsertOnSegment(s, 0, 0.5), 0), 0.5) != BezierPoint(Segment(s, 0), 0.25)
  {
    var o, p := Point(0.0, 0.0), Point(3.0, 0.0);
    var s := [AnchorState(o, o, p, false), AnchorState(p, p, p, false)];
    var r := InsertOnSegment(s, 0, 0.5);
    assert Segment(r, 0) == Cubic(o, Point(1.5, 0.0), p, Point(2.625, 0.0));
    assert BezierPoint(Segment(r, 0), 0.5).x == 2.015625;
    assert BezierPoint(Segment(s, 0), 0.25).x == 1.734375;
  }

  /** Two clicks at (0,0) and (100,0) that add anchors give a segment whose midpoint is
      (87.5, 0): `add_point` moves the first anchor's outgoing handle onto the second anchor. */
  lemma AddTwoPointsMidpoint()
    ensures var s := AddPoint(AddPoint([], Point(0.0, 0.0)), Point(100.0, 0.0));
            |s| == 2 && BezierPoint(Segment(s, 0), 0.5) == Point(87.5, 0.0)
  {
    var s := AddPoint(AddPoint([], Point(0.0, 0.0)), Point(100.0, 0.0));
    assert Segment(s, 0) == Cubic(Point(0.0, 0.0), Point(100.0, 0.0), Point(100.0, 0.0), Point(100.0, 0.0));
  }

  // ---------------------------------------------------------------------------------------
  // Hit tests
  // ---------------------------------------------------------------------------------------

  /** Whether q is within the radius of either handle of a. */
  predicate HandleNear(a: AnchorState, q: Point, radius: real)
  {
    Within(q, a.controlIn, radius) || Within(q, a.controlOut, radius)
  }

  /** The first loop of `find_nearest_point` (pen.py:147-151), from index i on. */
  function HandleScan(s: seq<AnchorState>, q: Point, radius: real, i: nat): (h: Option<Hit>)
    requires i <= |s|
    ensures h.Some? ==> i <= h.value.index < |s| && h.value.part != AnchorPart
    decreases |s| - i
  {
    if i == |s| then None
    else if Within(q, s[i].controlIn, radius) then Some(Hit(i, In))
    else if Within(q, s[i].controlOut, radius) then Some(Hit(i, Out))
    else HandleScan(s, q, radius, i + 1)
  }

  /** The second loop of `find_nearest_point` (pen.py:153-155), from index i on. */
  function PositionScan(s: seq<AnchorState>, q: Point, radius: real, i: nat): (h: Option<Hit>)
    requires i <= |s|
    ensures h.Some? ==> i <= h.value.index < |s| && h.value.part == AnchorPart
    decreases |s| - i
  {
    if i == |s| then None
    else if Within(q, s[i].pos, radius) then Some(Hit(i, AnchorPart))
    else PositionScan(s, q, radius, i + 1)
  }

  /** `find_nearest_point` (pen.py:145-156): every handle is tried before any position. */
  function NearestPoint(s: seq<AnchorState>, q: Point, radius: real): (h: Option<Hit>)
    ensures h.Some? ==> h.value.index < |s|
  {
    match HandleScan(s, q, radius, 0)
    case Some(h) => Some(h)
    case None => PositionScan(s, q, radius, 0)
  }

  lemma {:induction false} HandleScanSpec(s: seq<AnchorState>, q: Point, radius: real, i: nat)
    requires i <= |s|
    ensures HandleScan(s, q, radius, i).None? <==> forall j :: i <= j < |s| ==> !HandleNear(s[j], q, radius)
    ensures HandleScan(s, q, radius, i).Some? ==>
              var h := HandleScan(s, q, radius, i).value;
              (forall j :: i <= j < h.index ==> !HandleNear(s[j], q, radius))
              && (h.part == In ==> Within(q, s[h.index].controlIn, radius))
              && (h.part == Out ==> !Within(q, s[h.index].controlIn, radius) && Within(q, s[h.index].controlOut, radius))
    decreases |s| - i
  {
    if i < |s| {
      HandleScanSpec(s, q, radius, i + 1);
    }
  }

  lemma {:induction false} PositionScanSpec(s: seq<AnchorState>, q: Point, radius: real, i: nat)
    requires i <= |s|
    ensures PositionScan(s, q, radius, i).None? <==> forall j :: i <= j < |s| ==> !Within(q, s[j].pos, radius)
    ensures PositionScan(s, q, radius, i).Some? ==>
              var h := PositionScan(s, q, radius, i).value;
              (forall j :: i <= j < h.index ==> !Within(q, s[j].pos, radius)) && Within(q, s[h.index].pos, radius)
    decreases |s| - i
  {
    if i < |s| {
      PositionScanSpec(s, q, radius, i + 1);
    }
  }

  /** The scan order of `find_nearest_point`: the result is None exactly when no handle and no
      position is within the radius; an `'in'` or `'out'` hit is the first handle in path order
      (in before out); an `'anchor'` hit happens only when no handle at all is near, and is the
      first near position. */
  lemma NearestPointSpec(s: seq<AnchorState>, q: Point, radius: real)
    ensures NearestPoint(s, q, radius).None? <==>
              forall j :: 0 <= j < |s| ==> !HandleNear(s[j], q, radius) && !Within(q, s[j].pos, radius)
    ensures NearestPoint(s, q, radius).Some? ==>
              var h := NearestPoint(s, q, radius).value;
              h.index < |s|
              && (h.part == In ==>
                    Within(q, s[h.index].controlIn, radius)
                    && forall j :: 0 <= j < h.index ==> !HandleNear(s[j], q, radius))
              && (h.part == Out ==>
                    !Within(q, s[h.index].controlIn, radius) && Within(q, s[h.index].controlOut, radius)
                    && forall j :: 0 <= j < h.index ==> !HandleNear(s[j], q, radius))
              && (h.part == AnchorPart ==>
                    Within(q, s[h.index].pos, radius)
                    && (forall j :: 0 <= j < |s| ==> !HandleNear(s[j], q, radius))
                    && forall j :: 0 <= j < h.index ==> !Within(q, s[j].pos, radius))
  {
    HandleScanSpec(s, q, radius, 0);
    PositionScanSpec(s, q, radius, 0);
  }

  /** A click on an anchor whose incoming handle still sits on it never selects the anchor
      itself: some handle, at that anchor or before it, is hit first (pen.py:12, pen.py:147-149). */
  lemma FreshAnchorHitsHandle(s: seq<AnchorState>, q: Point, radius: real, k: nat)
    requires k < |s| && s[k].controlIn == s[k].pos && Within(q, s[k].pos, radius)
    ensures NearestPoint(s, q, radius).Some?
    ensures NearestPoint(s, q, radius).value.part != AnchorPart
    ensures NearestPoint(s, q, radius).value.index <= k
  {
    HandleScanSpec(s, q, radius, 0);
    assert HandleNear(s[k], q, radius);
  }

  /** The squared distance `find_closest_t` reports for segment i. */
  function SegmentDist2(s: seq<AnchorState>, q: Point, i: nat): real
    requires i + 1 < |s|
  {
    ClosestDist2(Segment(s, i), q, NewtonIterations)
  }

  /** The loop of `find_nearest_segment` (pen.py:329-338) over the first n segments: it keeps
      the segment whose distance is below the threshold and strictly below every earlier
      winner's. */
  function ScanBelow(s: seq<AnchorState>, q: Point, threshold: real, n: nat): (best: Option<nat>)
    requires n <= NumSegments(s)
    ensures best.Some? ==> best.value < n
    decreases n
  {
    if n == 0 then None
    else
      var prev := ScanBelow(s, q, threshold, n - 1);
      var d := SegmentDist2(s, q, n - 1);
      if Below(d, threshold) && (prev.None? || d < SegmentDist2(s, q, prev.value)) then Some(n - 1) else prev
  }

  /** What the scan keeps: None exactly when no segment's distance is below the threshold;
      otherwise a segment below the threshold whose distance is the least of those below it,
      and the first segment with that least distance (ties go to the earlier segment). */
  lemma {:induction false} ScanBelowSpec(s: seq<AnchorState>, q: Point, threshold: real, n: nat)
    requires n <= NumSegments(s)
    ensures ScanBelow(s, q, threshold, n).None? <==>
              forall j :: 0 <= j < n ==> !Below(SegmentDist2(s, q, j), threshold)
    ensures ScanBelow(s, q, threshold, n).Some? ==>
              var i := ScanBelow(s, q, threshold, n).value;
              i < n && Below(SegmentDist2(s, q, i), threshold)
              && (forall j :: 0 <= j < n && Below(SegmentDist2(s, q, j), threshold) ==>
                    SegmentDist2(s, q, i) <= SegmentDist2(s, q, j))
              && (forall j :: 0 <= j < i && Below(SegmentDist2(s, q, j), threshold) ==>
                    SegmentDist2(s, q, i) < SegmentDist2(s, q, j))
    decreases n
  {
    if n > 0 {
      ScanBelowSpec(s, q, threshold, n - 1);
    }
  }

  /** `find_nearest_segment` (pen.py:324-340): the segment (by its left index) and its t. */
  function NearestSegment(s: seq<AnchorState>, q: Point, threshold: real): (r: (Option<nat>, real))
    ensures r.0.None? ==> r.1 == 0.0
    ensures r.0.Some? ==> r.0.value + 1 < |s| && 0.0 <= r.1 <= 1.0
  {
    var best := ScanBelow(s, q, threshold, NumSegments(s));
    if best.None? then (None, 0.0)
    else (best, ClosestT(Segment(s, best.value), q, StartT, NewtonIterations))
  }

  /** `find_nearest_segment` in terms of the segments: None (with t = 0) exactly when no segment
      comes within the threshold; otherwise a segment (i, i+1) of the path within the threshold,
      at least as close as every other one within it, the earliest of the closest, with t in
      [0,1] as `find_closest_t` gives it. */
  lemma NearestSegmentSpec(s: seq<AnchorState>, q: Point, threshold: real)
    ensures var (best, t) := NearestSegment(s, q, threshold);
            (best.None? <==> forall j :: 0 <= j < NumSegments(s) ==> !Below(SegmentDist2(s, q, j), threshold))
            && (best.None? ==> t == 0.0)
            && (best.Some? ==>
                  var i := best.value;
                  i + 1 < |s| && Below(SegmentDist2(s, q, i), threshold)
                  && t == ClosestT(Segment(s, i), q, StartT, NewtonIterations) && 0.0 <= t <= 1.0
                  && (forall j :: 0 <= j < NumSegments(s) && Below(SegmentDist2(s, q, j), threshold) ==>
                        SegmentDist2(s, q, i) <= SegmentDist2(s, q, j))
                  && (forall j :: 0 <= j < i && Below(SegmentDist2(s, q, j), threshold) ==>
                        SegmentDist2(s, q, i) < SegmentDist2(s, q, j)))
  {
    ScanBelowSpec(s, q, threshold, NumSegments(s));
  }
}
