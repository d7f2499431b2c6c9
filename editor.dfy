/** The pen tool's editor state (pen.py:16-492 without the canvas): anchors as objects whose
    fields the handlers update in place, the selection, the drag flag and the undo history.
    Every handler is proved against the value-level functions of Path and History, through
    `Snap()`, the anchors' current values in path order. */
module Editor {
  import opened Wrappers
  import opened Geometry
  import opened Path
  import opened History

  /** `AnchorPoint` (pen.py:7-14). */
  class Anchor {
    var x: real
    var y: real
    var controlIn: Point
    var controlOut: Point
    var locked: bool

    /** `AnchorPoint(x, y)`: both handles on the anchor, unlocked. */
    constructor (x: real, y: real)
      ensures State() == Path.Fresh(Point(x, y))
    {
      this.x := x;
      this.y := y;
      controlIn := Point(x, y);
      controlOut := Point(x, y);
      locked := false;
    }

    function Pos(): Point
      reads this
    {
      Point(x, y)
    }

    /** The anchor's current value. */
    function State(): AnchorState
      reads this
    {
      AnchorState(Point(x, y), controlIn, controlOut, locked)
    }

    /** The drag rules of `on_drag` (pen.py:434-467) on this anchor, for the pointer at
        (ex, ey). */
    method Follow(pointType: Part, ex: real, ey: real)
      modifies this
      ensures State() == DragPart(old(State()), pointType, Point(ex, ey))
    {
      if pointType == AnchorPart {
        var dx := ex - x;
        var dy := ey - y;
        x := ex;
        y := ey;
        controlIn := Point(controlIn.x + dx, controlIn.y + dy);
        controlOut := Point(controlOut.x + dx, controlOut.y + dy);
      } else if pointType == In {
        controlIn := Point(ex, ey);
        if !locked {
          var dx := ex - x;
          var dy := ey - y;
          controlOut := Point(x - dx, y - dy);
        }
      } else {
        controlOut := Point(ex, ey);
        if !locked {
          var dx := ex - x;
          var dy := ey - y;
          controlIn := Point(x - dx, y - dy);
        }
      }
    }
  }

  /** `self.selected` when set: the anchor object and the part of it that was hit. */
  datatype Selection = Selection(anchor: Anchor, part: Part)

  /** The values of a list of anchors, in order. */
  function States(ps: seq<Anchor>): (r: seq<AnchorState>)
    reads ps
    ensures |r| == |ps|
    ensures forall i :: 0 <= i < |ps| ==> r[i] == ps[i].State()
  {
    seq(|ps|, i requires 0 <= i < |ps| reads ps => ps[i].State())
  }

  /** No anchor object appears twice: each one is absent from the anchors before it. */
  ghost predicate Distinct(ps: seq<Anchor>)
  {
    |ps| == 0 || (ps[|ps| - 1] !in ps[..|ps| - 1] && Distinct(ps[..|ps| - 1]))
  }

  lemma {:induction false} DistinctOthers(ps: seq<Anchor>, k: nat)
    requires Distinct(ps) && k < |ps|
    ensures forall j :: 0 <= j < |ps| && j != k ==> ps[j] != ps[k]
  {
    var n := |ps| - 1;
    if k < n {
      DistinctOthers(ps[..n], k);
      assert ps[k] in ps[..n];
    } else {
      assert forall j :: 0 <= j < n ==> ps[j] in ps[..n];
    }
  }

  lemma DistinctAppend(ps: seq<Anchor>, a: Anchor)
    requires Distinct(ps) && a !in ps
    ensures Distinct(ps + [a])
  {
    assert (ps + [a])[..|ps|] == ps;
  }

  /** Distinctness from the list's elements pairwise. */
  lemma {:induction false} DistinctFromPairs(ps: seq<Anchor>)
    requires forall i, j :: 0 <= i < j < |ps| ==> ps[i] != ps[j]
    ensures Distinct(ps)
  {
    if |ps| > 0 {
      var n := |ps| - 1;
      DistinctFromPairs(ps[..n]);
      assert forall i :: 0 <= i < n ==> ps[..n][i] == ps[i] != ps[n];
    }
  }

  lemma DistinctRemove(ps: seq<Anchor>, k: nat)
    requires Distinct(ps) && k < |ps|
    ensures Distinct(ps[..k] + ps[k + 1..])
  {
    var r := ps[..k] + ps[k + 1..];
    forall i, j | 0 <= i < j < |r|
      ensures r[i] != r[j]
    {
      var i' := RemovedIndex(ps, k, i);
      var j' := RemovedIndex(ps, k, j);
      DistinctOthers(ps, j');
    }
    DistinctFromPairs(r);
  }

  /** Where element i of the list with index k removed comes from. */
  lemma RemovedIndex(ps: seq<Anchor>, k: nat, i: nat) returns (i': nat)
    requires k < |ps| && i < |ps| - 1
    ensures i' == (if i < k then i else i + 1) && (ps[..k] + ps[k + 1..])[i] == ps[i']
  {
    if i < k {
      i' := i;
      assert (ps[..k] + ps[k + 1..])[i] == ps[..k][i];
    } else {
      i' := i + 1;
      assert (ps[..k] + ps[k + 1..])[i] == ps[k + 1..][i - k];
    }
  }

  lemma DistinctInsert(ps: seq<Anchor>, k: nat, a: Anchor)
    requires Distinct(ps) && k <= |ps| && a !in ps
    ensures Distinct(ps[..k] + [a] + ps[k..])
  {
    var r := ps[..k] + [a] + ps[k..];
    forall i, j | 0 <= i < j < |r|
      ensures r[i] != r[j]
    {
      if i != k && j != k {
        var i' := InsertedIndex(ps, k, a, i);
        var j' := InsertedIndex(ps, k, a, j);
        DistinctOthers(ps, j');
      } else if i == k {
        var j' := InsertedIndex(ps, k, a, j);
      } else {
        var i' := InsertedIndex(ps, k, a, i);
        assert r[j] == a;
      }
    }
    DistinctFromPairs(r);
  }

  /** Where element i other than k of the list with a inserted at k comes from. */
  lemma InsertedIndex(ps: seq<Anchor>, k: nat, a: Anchor, i: nat) returns (i': nat)
    requires k <= |ps| && i <= |ps| && i != k
    ensures i' == (if i < k then i else i - 1) && (ps[..k] + [a] + ps[k..])[i] == ps[i']
  {
    if i < k {
      i' := i;
      assert (ps[..k] + [a] + ps[k..])[i] == ps[..k][i];
    } else {
      i' := i - 1;
      assert (ps[..k] + [a] + ps[k..])[i] == ps[k..][i - k - 1];
    }
  }

  /** Removing the anchor at k removes its value. */
  lemma StatesRemove(ps: seq<Anchor>, k: nat)
    requires k < |ps|
    ensures States(ps[..k] + ps[k + 1..]) == States(ps)[..k] + States(ps)[k + 1..]
  {
    var l, r := States(ps[..k] + ps[k + 1..]), States(ps)[..k] + States(ps)[k + 1..];
    assert forall j :: 0 <= j < |l| ==> l[j] == r[j];
  }

  /** Inserting anchor a at k inserts its value. */
  lemma StatesInsert(ps: seq<Anchor>, k: nat, a: Anchor)
    requires k <= |ps|
    ensures States(ps[..k] + [a] + ps[k..]) == States(ps)[..k] + [a.State()] + States(ps)[k..]
  {
    var l, r := States(ps[..k] + [a] + ps[k..]), States(ps)[..k] + [a.State()] + States(ps)[k..];
    assert forall j :: 0 <= j < |l| ==> l[j] == r[j];
  }

  /** The split on segment i as the editor performs it: the two facing handles are updated in
      place, then the new anchor goes in at i+1. */
  lemma InsertAsUpdates(s: seq<AnchorState>, i: nat, t: real, out: Point, in': Point)
    requires i + 1 < |s|
    requires out == Lerp(s[i].pos, s[i].controlOut, t)
    requires in' == Lerp(SplitAnchor(s, i, t).controlIn, s[i + 1].controlIn, t)
    ensures var s2 := s[i := s[i].(controlOut := out)][i + 1 := s[i + 1].(controlIn := in')];
            s2[..i + 1] + [SplitAnchor(s, i, t)] + s2[i + 1..] == InsertOnSegment(s, i, t)
  {
    var s2 := s[i := s[i].(controlOut := out)][i + 1 := s[i + 1].(controlIn := in')];
    var l, r := s2[..i + 1] + [SplitAnchor(s, i, t)] + s2[i + 1..], InsertOnSegment(s, i, t);
    assert forall j :: 0 <= j < |r| ==> l[j] == r[j];
  }

  /** ps is ps0 with one object put in at k and every other object kept in order (`list.insert`). */
  ghost predicate InsertedObject(ps: seq<Anchor>, ps0: seq<Anchor>, k: nat)
  {
    k <= |ps0| && k < |ps| && ps == ps0[..k] + [ps[k]] + ps0[k..]
  }

  /** ps is ps0 with one object appended (`list.append`). */
  ghost predicate AppendedObject(ps: seq<Anchor>, ps0: seq<Anchor>)
  {
    |ps| > 0 && ps == ps0 + [ps[|ps| - 1]]
  }

  /** `list.index`: the first position of a in ps. */
  function IndexOf(ps: seq<Anchor>, a: Anchor): (k: nat)
    requires a in ps
    ensures k < |ps| && ps[k] == a
    ensures forall j :: 0 <= j < k ==> ps[j] != a
  {
    if ps[0] == a then 0 else 1 + IndexOf(ps[1..], a)
  }

  /** The cubic from anchor p1 to anchor p2, the segment `find_closest_t` works on. */
  function SegmentOf(p1: Anchor, p2: Anchor): Cubic
    reads p1, p2
  {
    Cubic(p1.Pos(), p1.controlOut, p2.controlIn, p2.Pos())
  }

  /** `radius=8` of `find_nearest_point` and `threshold=15` of `find_nearest_segment`. */
  const HitRadius: real := 8.0
  const SegmentThreshold: real := 15.0

  /** `PenToolCanvas` (pen.py:16-492) without the canvas, controls and styles. */
  class PenTool {
    var points: seq<Anchor>
    var selected: Option<Selection>
    var dragging: bool
    var history: seq<Snapshot>

    /** Each anchor object appears in the path once. */
    ghost predicate Valid()
      reads this`points
    {
      Distinct(points)
    }

    /** The anchors' values, in path order. */
    function Snap(): seq<AnchorState>
      reads this`points, points
    {
      States(points)
    }

    /** `init_data` (pen.py:41-50): no anchors, no selection, not dragging, no history. */
    constructor ()
      ensures Valid()
      ensures points == [] && selected == None && !dragging && history == []
    {
      points := [];
      selected := None;
      dragging := false;
      history := [];
    }

    /** Sets the outgoing handle of anchor k; no other anchor changes. */
    method SetControlOut(k: nat, p: Point)
      requires Valid() && k < |points|
      modifies points[k]
      ensures Snap() == old(Snap())[k := old(Snap())[k].(controlOut := p)]
    {
      ghost var s0 := Snap();
      DistinctOthers(points, k);
      points[k].controlOut := p;
      assert forall j :: 0 <= j < |points| ==> Snap()[j] == s0[k := s0[k].(controlOut := p)][j];
    }

    /** Sets the incoming handle of anchor k; no other anchor changes. */
    method SetControlIn(k: nat, p: Point)
      requires Valid() && k < |points|
      modifies points[k]
      ensures Snap() == old(Snap())[k := old(Snap())[k].(controlIn := p)]
    {
      ghost var s0 := Snap();
      DistinctOthers(points, k);
      points[k].controlIn := p;
      assert forall j :: 0 <= j < |points| ==> Snap()[j] == s0[k := s0[k].(controlIn := p)][j];
    }

    /** `push_history` (pen.py:163-164): the record of the current anchors is appended. */
    method PushHistory()
      modifies this`history
      ensures history == old(history) + [Record(Snap())]
      ensures points == old(points) && Snap() == old(Snap())
      ensures selected == old(selected) && dragging == old(dragging)
    {
      history := history + [Record(Snap())];
    }

    /** `create_point_from_data` (pen.py:176-180): a new anchor object built from an entry. */
    method CreatePointFromData(data: Entry) returns (p: Anchor)
      ensures fresh(p)
      ensures p.State() == FromEntry(data)
    {
      p := new Anchor(data.x, data.y);
      p.controlIn := data.controlIn;
      p.controlOut := data.controlOut;
    }

    /** The list comprehension of `undo` (pen.py:172): one new anchor object per entry, in
        order. */
    method Rebuild(snapshot: Snapshot) returns (ps: seq<Anchor>)
      ensures Distinct(ps) && States(ps) == Restore(snapshot)
      ensures forall j :: 0 <= j < |ps| ==> fresh(ps[j])
    {
      ps := [];
      var i := 0;
      while i < |snapshot|
        invariant 0 <= i <= |snapshot| && |ps| == i
        invariant forall j :: 0 <= j < i ==> fresh(ps[j]) && ps[j].State() == FromEntry(snapshot[j])
        invariant Distinct(ps)
      {
        var p := CreatePointFromData(snapshot[i]);
        DistinctAppend(ps, p);
        ps := ps + [p];
        i := i + 1;
      }
      assert forall j :: 0 <= j < |ps| ==> States(ps)[j] == Restore(snapshot)[j];
    }

    /** `undo` (pen.py:167-173): the newest snapshot is dropped and, when one is left, the
        anchors are replaced by new objects built from it. The selection is left as it was, so
        it may name an anchor that is no longer in the path. */
    method Undo()
      requires Valid()
      modifies this`points, this`history
      ensures Valid()
      ensures (Snap(), history) == History.Undo(old(Snap()), old(history))
      ensures |old(history)| <= 1 ==> points == old(points)
      ensures |old(history)| >= 2 ==> forall j :: 0 <= j < |points| ==> fresh(points[j])
    {
      if |history| > 0 {
        history := history[..|history| - 1];
        if |history| > 0 {
          var ps := Rebuild(history[|history| - 1]);
          points := ps;
        }
      }
    }

    /** `on_release` (pen.py:93-95): the drag ends and the current anchors are committed. */
    method OnRelease()
      modifies this`dragging, this`history
      ensures !dragging
      ensures history == old(history) + [Record(Snap())]
    {
      dragging := false;
      PushHistory();
    }

    /** `add_point` (pen.py:98-105): a new anchor object at (ex, ey) is appended. */
    method AddPoint(ex: real, ey: real)
      requires Valid()
      modifies this`points, points
      ensures Valid()
      ensures Snap() == Path.AddPoint(old(Snap()), Point(ex, ey))
      ensures |points| == |old(points)| + 1 && points[..|old(points)|] == old(points)
      ensures fresh(points[|points| - 1])
    {
      ghost var s0 := Snap();
      var newPoint := new Anchor(ex, ey);
      if |points| > 0 {
        SetControlOut(|points| - 1, Point(ex, ey));
        newPoint.controlIn := Point(ex, ey);
      }
      ghost var s1 := Snap();
      DistinctAppend(points, newPoint);
      points := points + [newPoint];
      assert Snap() == s1 + [newPoint.State()];
      assert forall j :: 0 <= j < |Snap()| ==> Snap()[j] == Path.AddPoint(s0, Point(ex, ey))[j];
    }

    /** `delete_selected` (pen.py:110-125): with an anchor selected, its neighbours' facing
        handles collapse onto their positions, it leaves the path, the selection is cleared and
        the state is committed; with nothing selected nothing happens. The source looks the
        anchor up with `list.index`, which fails for an anchor no longer in the path. */
    method DeleteSelected()
      requires Valid()
      requires selected.Some? ==> selected.value.anchor in points
      modifies this`points, this`selected, this`history, points
      ensures Valid()
      ensures old(selected).None? ==>
                points == old(points) && Snap() == old(Snap()) && selected == None && history == old(history)
      ensures old(selected).Some? ==>
                var k := IndexOf(old(points), old(selected).value.anchor);
                points == old(points)[..k] + old(points)[k + 1..]
                && Snap() == DeleteAt(old(Snap()), k)
                && selected == None
                && history == old(history) + [Record(Snap())]
    {
      if selected.Some? {
        var index := IndexOf(points, selected.value.anchor);
        DeleteAndCommit(index);
      }
    }

    /** The selected branch of `delete_selected` (pen.py:113-125) on the anchor at index: the
        edit, the cleared selection and the commit. */
    method DeleteAndCommit(index: nat)
      requires Valid() && index < |points|
      modifies this`points, this`selected, this`history, points
      ensures Valid()
      ensures points == old(points)[..index] + old(points)[index + 1..]
      ensures Snap() == DeleteAt(old(Snap()), index)
      ensures selected == None
      ensures history == old(history) + [Record(Snap())]
    {
      RemoveAt(index);
      Select(None);
      PushHistory();
    }

    /** An assignment to `self.selected`, which changes nothing else. */
    method Select(sel: Option<Selection>)
      modifies this`selected
      ensures selected == sel
      ensures points == old(points) && Snap() == old(Snap())
    {
      selected := sel;
    }

    /** The edit of `delete_selected` (pen.py:113-121) on the anchor at index: the neighbours'
        facing handles collapse, then the anchor object leaves the list. */
    method RemoveAt(index: nat)
      requires Valid() && index < |points|
      modifies this`points, points
      ensures Valid()
      ensures points == old(points)[..index] + old(points)[index + 1..]
      ensures Snap() == DeleteAt(old(Snap()), index)
    {
      CollapseNeighbors(index);
      StatesRemove(points, index);
      DistinctRemove(points, index);
      points := points[..index] + points[index + 1..];
    }

    /** The handle collapses of `delete_selected` (pen.py:113-119) around the anchor at index. */
    method CollapseNeighbors(index: nat)
      requires Valid() && index < |points|
      modifies points
      ensures Snap() == Collapse(old(Snap()), index)
    {
      ghost var s0 := Snap();
      if index > 0 {
        var prevPoint := points[index - 1];
        SetControlOut(index - 1, prevPoint.Pos());
      }
      ghost var s1 := Snap();
      assert s1 == if index > 0 then s0[index - 1 := s0[index - 1].(controlOut := s0[index - 1].pos)] else s0;
      if index < |points| - 1 {
        var nextPoint := points[index + 1];
        SetControlIn(index + 1, nextPoint.Pos());
      }
    }

    /** `find_nearest_point` (pen.py:145-156): the first anchor with a handle within the radius
        (incoming handle first), else the first anchor whose position is within it. */
    method FindNearestPoint(ex: real, ey: real, radius: real) returns (found: Option<Selection>)
      requires Valid()
      ensures Valid() && points == old(points) && Snap() == old(Snap()) && history == old(history)
      ensures selected == old(selected) && dragging == old(dragging)
      ensures NearestPoint(Snap(), Point(ex, ey), radius).None? ==> found.None?
      ensures NearestPoint(Snap(), Point(ex, ey), radius).Some? ==>
                var h := NearestPoint(Snap(), Point(ex, ey), radius).value;
                h.index < |points| && found == Some(Selection(points[h.index], h.part))
    {
      var q := Point(ex, ey);
      var i := 0;
      while i < |points|
        invariant 0 <= i <= |points|
        invariant HandleScan(Snap(), q, radius, i) == HandleScan(Snap(), q, radius, 0)
      {
        var point := points[i];
        if Within(q, point.controlIn, radius) {
          return Some(Selection(point, In));
        }
        if Within(q, point.controlOut, radius) {
          return Some(Selection(point, Out));
        }
        i := i + 1;
      }
      i := 0;
      while i < |points|
        invariant 0 <= i <= |points|
        invariant PositionScan(Snap(), q, radius, i) == PositionScan(Snap(), q, radius, 0)
      {
        var point := points[i];
        if Within(q, point.Pos(), radius) {
          return Some(Selection(point, AnchorPart));
        }
        i := i + 1;
      }
      return None;
    }

    /** `find_nearest_segment` (pen.py:324-340): over the segments in order, the one whose
        closest point is within the threshold and strictly closer than every earlier winner,
        by its left index, with that point's t; `min_dist = float('inf')` is `None`. */
    method FindNearestSegment(ex: real, ey: real, threshold: real) returns (segment: Option<nat>, t: real)
      ensures (segment, t) == NearestSegment(Snap(), Point(ex, ey), threshold)
    {
      var q := Point(ex, ey);
      ghost var s := Snap();
      var minDist: Option<real> := None;
      segment := None;
      t := 0.0;
      var i := 0;
      while i + 1 < |points|
        invariant 0 <= i <= NumSegments(s)
        invariant segment == ScanBelow(s, q, threshold, i)
        invariant segment.None? <==> minDist.None?
        invariant segment.Some? ==>
                    minDist.value == SegmentDist2(s, q, segment.value)
                    && t == ClosestT(Segment(s, segment.value), q, StartT, NewtonIterations)
        invariant segment.None? ==> t == 0.0
      {
        var p1, p2 := points[i], points[i + 1];
        ghost var c := Segment(s, i);
        assert SegmentOf(p1, p2) == c;
        var ti, dist := FindClosestT(SegmentOf(p1, p2), q, NewtonIterations);
        assert dist == ClosestDist2(c, q, NewtonIterations) == SegmentDist2(s, q, i);
        if Below(dist, threshold) && (minDist.None? || dist < minDist.value) {
          minDist := Some(dist);
          segment := Some(i);
          t := ti;
        }
        i := i + 1;
      }
      assert i == NumSegments(s) && Snap() == s;
    }

    /** `insert_point_on_segment` (pen.py:392-425) on the segment from anchor i to anchor i+1:
        t is found again for (ex, ey), a new anchor object goes in between, the two facing
        handles are re-interpolated, and the new anchor is selected. */
    method InsertPointOnSegment(i: nat, ex: real, ey: real)
      requires Valid() && i + 1 < |points|
      modifies this`points, this`selected, points
      ensures Valid() && dragging == old(dragging) && history == old(history)
      ensures Snap() == InsertOnSegment(old(Snap()), i, ClosestT(Segment(old(Snap()), i), Point(ex, ey), StartT, NewtonIterations))
      ensures |points| == |old(points)| + 1
      ensures InsertedObject(points, old(points), i + 1)
      ensures fresh(points[i + 1])
      ensures selected == Some(Selection(points[i + 1], AnchorPart))
    {
      var p1, p2 := points[i], points[i + 1];
      assert SegmentOf(p1, p2) == Segment(Snap(), i);
      var t, _ := FindClosestT(SegmentOf(p1, p2), Point(ex, ey), NewtonIterations);
      var newPoint := SplitAt(i, t);
      Select(Some(Selection(newPoint, AnchorPart)));
    }

    /** The split of `insert_point_on_segment` (pen.py:401-424) at a given t. */
    method SplitAt(i: nat, t: real) returns (newPoint: Anchor)
      requires Valid() && i + 1 < |points|
      modifies this`points, points
      ensures Valid()
      ensures Snap() == InsertOnSegment(old(Snap()), i, t)
      ensures points == old(points)[..i + 1] + [newPoint] + old(points)[i + 1..]
      ensures fresh(newPoint)
    {
      ghost var s0 := Snap();
      var p1, p2 := points[i], points[i + 1];
      newPoint := NewSplitAnchor(p1, p2, t);
      assert Snap() == s0;
      assert newPoint.State() == SplitAnchor(s0, i, t);
      var out, in' := Lerp(p1.Pos(), p1.controlOut, t), Lerp(newPoint.controlIn, p2.controlIn, t);
      InsertAsUpdates(s0, i, t, out, in');
      SetControlOut(i, out);
      SetControlIn(i + 1, in');
      assert newPoint.State() == SplitAnchor(s0, i, t);
      InsertAt(i + 1, newPoint);
    }

    /** `list.insert(k, a)` of a new anchor object. */
    method InsertAt(k: nat, a: Anchor)
      requires Valid() && k <= |points| && a !in points
      modifies this`points
      ensures Valid()
      ensures points == old(points)[..k] + [a] + old(points)[k..]
      ensures Snap() == old(Snap())[..k] + [a.State()] + old(Snap())[k..]
    {
      StatesInsert(points, k, a);
      DistinctInsert(points, k, a);
      points := points[..k] + [a] + points[k..];
    }

    /** The new anchor of `insert_point_on_segment` (pen.py:401-412) on the segment from p1 to
        p2 at t. */
    static method NewSplitAnchor(p1: Anchor, p2: Anchor, t: real) returns (n: Anchor)
      ensures fresh(n) && n.State() == SplitAnchor([p1.State(), p2.State()], 0, t)
    {
      n := new Anchor(0.0, 0.0);
      var b := BezierPoint(SegmentOf(p1, p2), t);
      n.x, n.y := b.x, b.y;
      n.controlIn := Lerp(p1.controlOut, p2.controlIn, t);
      n.controlOut := Lerp(p2.controlIn, p2.Pos(), t);
    }

    /** `update_neighbor_curves` (pen.py:474-492): the previous anchor's outgoing handle and
        the next anchor's incoming handle are pulled after the current anchor's handles. */
    method UpdateNeighborCurves(current: Anchor)
      requires Valid() && current in points
      modifies points
      ensures Snap() == UpdateNeighbors(old(Snap()), IndexOf(points, current))
    {
      ghost var s0 := Snap();
      var index := IndexOf(points, current);
      ghost var cur := s0[index];
      if index > 0 {
        var prevPoint := points[index - 1];
        SetControlOut(index - 1, Add(current.controlIn, Scale(Damping, Sub(current.Pos(), prevPoint.Pos()))));
      }
      ghost var s1 := Snap();
      assert s1 == if index > 0
        then s0[index - 1 := s0[index - 1].(controlOut := Add(cur.controlIn, Scale(Damping, Sub(cur.pos, s0[index - 1].pos))))]
        else s0;
      assert current.State() == s1[index] == cur;
      if index < |points| - 1 {
        var nextPoint := points[index + 1];
        SetControlIn(index + 1, Add(current.controlOut, Scale(Damping, Sub(nextPoint.Pos(), current.Pos()))));
      }
      assert Snap() == if index < |s1| - 1
        then s1[index + 1 := s1[index + 1].(controlIn := Add(cur.controlOut, Scale(Damping, Sub(s1[index + 1].pos, cur.pos))))]
        else s1;
    }

    /** `on_drag` (pen.py:429-470): while dragging a selection, the selected part follows the
        pointer and the neighbours are updated; otherwise nothing changes. The source looks the
        anchor up with `list.index`, which fails for an anchor no longer in the path. */
    method OnDrag(ex: real, ey: real)
      requires Valid()
      requires dragging && selected.Some? ==> selected.value.anchor in points
      modifies points
      ensures dragging && selected.Some? ==>
                Snap() == Drag(old(Snap()), IndexOf(points, selected.value.anchor), selected.value.part, Point(ex, ey))
      ensures !(dragging && selected.Some?) ==> Snap() == old(Snap())
    {
      if dragging && selected.Some? {
        var point, pointType := selected.value.anchor, selected.value.part;
        MovePart(point, pointType, ex, ey);
        UpdateNeighborCurves(point);
      }
    }

    /** The first half of `on_drag` (pen.py:433-467): the dragged part of the anchor follows
        the pointer. Dragging the anchor carries both handles along; dragging a handle of an
        unlocked anchor mirrors the other handle through the anchor. */
    method MovePart(point: Anchor, pointType: Part, ex: real, ey: real)
      requires Valid() && point in points
      modifies points
      ensures Snap() == old(Snap())[IndexOf(points, point) := DragPart(old(point.State()), pointType, Point(ex, ey))]
    {
      ghost var s0 := Snap();
      ghost var k := IndexOf(points, point);
      DistinctOthers(points, k);
      point.Follow(pointType, ex, ey);
      assert forall j :: 0 <= j < |points| ==> Snap()[j] == s0[k := point.State()][j];
    }

    /** `on_click` (pen.py:304-321): a hit on a handle or an anchor selects it and starts a
        drag; else a click near a segment splits it there and commits; else a new anchor is
        appended and committed. */
    method OnClick(ex: real, ey: real)
      requires Valid()
      modifies this`points, this`selected, this`dragging, this`history, points
      ensures Valid()
      ensures var q := Point(ex, ey);
              var hit := NearestPoint(old(Snap()), q, HitRadius);
              var (seg, t) := NearestSegment(old(Snap()), q, SegmentThreshold);
              if hit.Some? then
                hit.value.index < |points| && points == old(points) && Snap() == old(Snap())
                && selected == Some(Selection(points[hit.value.index], hit.value.part)) && dragging
                && history == old(history)
              else if seg.Some? then
                SplitState(old(points), old(Snap()), old(history), seg.value, t)
                && t == ClosestT(Segment(old(Snap()), seg.value), q, StartT, NewtonIterations)
                && fresh(points[seg.value + 1]) && dragging == old(dragging)
              else
                AppendState(old(points), old(Snap()), old(selected), old(history), q)
                && fresh(points[|points| - 1]) && dragging == old(dragging)
    {
      var found := FindNearestPoint(ex, ey, HitRadius);
      if found.Some? {
        StartDrag(found.value);
      } else {
        var _, _ := ClickAwayFromAnchors(ex, ey);
      }
    }

    /** The state after a click split segment i of the anchors s0 (the objects ps0, the
        history h0) at t and committed: one new object at i+1 and every old object kept in
        order, the values InsertOnSegment gives, the new anchor selected and the result recorded. */
    ghost predicate SplitState(ps0: seq<Anchor>, s0: seq<AnchorState>, h0: seq<Snapshot>, i: nat, t: real)
      reads this, points
    {
      i + 1 < |s0| && InsertedObject(points, ps0, i + 1)
      && Snap() == InsertOnSegment(s0, i, t)
      && selected == Some(Selection(points[i + 1], AnchorPart))
      && history == h0 + [Record(Snap())]
    }

    /** The state after a click appended an anchor at q to the anchors s0 (the objects ps0, the
        selection sel0, the history h0) and committed: one new object at the end and every old
        object kept in order, the values Path.AddPoint gives, the selection as it was and the
        result recorded. */
    ghost predicate AppendState(ps0: seq<Anchor>, s0: seq<AnchorState>, sel0: Option<Selection>, h0: seq<Snapshot>, q: Point)
      reads this, points
    {
      AppendedObject(points, ps0) && Snap() == Path.AddPoint(s0, q)
      && selected == sel0 && history == h0 + [Record(Snap())]
    }

    /** The hit branch of `on_click` (pen.py:307-310): the hit becomes the selection and a drag
        begins; the anchors are left as they are. */
    method StartDrag(hit: Selection)
      modifies this`selected, this`dragging
      ensures selected == Some(hit) && dragging
      ensures points == old(points) && Snap() == old(Snap())
    {
      selected := Some(hit);
      dragging := true;
    }

    /** The part of `on_click` (pen.py:313-321) after no anchor or handle was hit: split the
        nearest segment within the threshold, or else append an anchor, and commit either. It
        returns the `segment, t` that `find_nearest_segment` gave (pen.py:313). */
    method ClickAwayFromAnchors(ex: real, ey: real) returns (segment: Option<nat>, t: real)
      requires Valid()
      modifies this`points, this`selected, this`history, points
      ensures Valid() && dragging == old(dragging)
      ensures (segment, t) == NearestSegment(old(Snap()), Point(ex, ey), SegmentThreshold)
      ensures segment.Some? ==>
                SplitState(old(points), old(Snap()), old(history), segment.value, t)
                && t == ClosestT(Segment(old(Snap()), segment.value), Point(ex, ey), StartT, NewtonIterations)
                && fresh(points[segment.value + 1])
      ensures segment.None? ==>
                AppendState(old(points), old(Snap()), old(selected), old(history), Point(ex, ey))
                && fresh(points[|points| - 1])
    {
      segment, t := FindNearestSegment(ex, ey, SegmentThreshold);
      if segment.Some? {
        SplitAndCommit(segment.value, ex, ey);
      } else {
        AppendAndCommit(ex, ey);
      }
    }

    /** `insert_point_on_segment` followed by `push_history` (pen.py:315-316). */
    method SplitAndCommit(i: nat, ex: real, ey: real)
      requires Valid() && i + 1 < |points|
      modifies this`points, this`selected, this`history, points
      ensures Valid() && dragging == old(dragging)
      ensures |points| == |old(points)| + 1
      ensures InsertedObject(points, old(points), i + 1)
      ensures Snap() == InsertOnSegment(old(Snap()), i, ClosestT(Segment(old(Snap()), i), Point(ex, ey), StartT, NewtonIterations))
      ensures fresh(points[i + 1]) && selected == Some(Selection(points[i + 1], AnchorPart))
      ensures history == old(history) + [Record(Snap())]
    {
      InsertPointOnSegment(i, ex, ey);
      PushHistory();
    }

    /** `add_point` followed by `push_history` (pen.py:320-321). */
    method AppendAndCommit(ex: real, ey: real)
      requires Valid()
      modifies this`points, this`history, points
      ensures Valid() && dragging == old(dragging) && selected == old(selected)
      ensures Snap() == Path.AddPoint(old(Snap()), Point(ex, ey)) && fresh(points[|points| - 1])
      ensures AppendedObject(points, old(points))
      ensures history == old(history) + [Record(Snap())]
    {
      AddPoint(ex, ey);
      PushHistory();
    }
  }
}
