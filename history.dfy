/** The undo history of the pen tool as values: a snapshot per committed state, the way
    `push_history` records the anchors and `create_point_from_data` rebuilds them. */
module History {
  import opened Geometry
  import opened Path

  /** One recorded anchor, the tuple `(p.x, p.y, p.control_in, p.control_out)` (pen.py:164);
      the lock flag is not recorded. */
  datatype Entry = Entry(x: real, y: real, controlIn: Point, controlOut: Point)

  /** The anchors of one committed state, in path order. */
  type Snapshot = seq<Entry>

  /** The entry `push_history` writes for one anchor. */
  function RecordAnchor(a: AnchorState): (e: Entry)
    ensures Point(e.x, e.y) == a.pos && e.controlIn == a.controlIn && e.controlOut == a.controlOut
  {
    Entry(a.pos.x, a.pos.y, a.controlIn, a.controlOut)
  }

  /** `create_point_from_data` (pen.py:176-180) on values: an anchor with the recorded position
      and handles, and the lock flag of a new `AnchorPoint`, which is off. */
  function FromEntry(e: Entry): (a: AnchorState)
    ensures a.pos == Point(e.x, e.y) && a.controlIn == e.controlIn && a.controlOut == e.controlOut
    ensures !a.locked
  {
    Fresh(Point(e.x, e.y)).(controlIn := e.controlIn, controlOut := e.controlOut)
  }

  /** The snapshot `push_history` (pen.py:163-164) appends: one entry per anchor, in order. */
  function Record(s: seq<AnchorState>): (h: Snapshot)
    ensures |h| == |s|
    ensures forall i :: 0 <= i < |s| ==> h[i] == RecordAnchor(s[i])
  {
    if |s| == 0 then [] else Record(s[..|s| - 1]) + [RecordAnchor(s[|s| - 1])]
  }

  /** The anchors `undo` (pen.py:172) rebuilds from a snapshot, one per entry, in order. */
  function Restore(h: Snapshot): (s: seq<AnchorState>)
    ensures |s| == |h|
    ensures forall i :: 0 <= i < |h| ==> s[i] == FromEntry(h[i])
  {
    if |h| == 0 then [] else Restore(h[..|h| - 1]) + [FromEntry(h[|h| - 1])]
  }

  /** The anchor list with every lock flag cleared. */
  function Unlocked(s: seq<AnchorState>): (r: seq<AnchorState>)
    ensures |r| == |s|
    ensures forall i :: 0 <= i < |s| ==> r[i] == s[i].(locked := false)
  {
    seq(|s|, i requires 0 <= i < |s| => s[i].(locked := false))
  }

  /** Rebuilding a recorded list gives back every anchor's position and handles; only the lock
      flags are lost. */
  lemma RestoreRecord(s: seq<AnchorState>)
    ensures Restore(Record(s)) == Unlocked(s)
  {
    var r := Restore(Record(s));
    forall i | 0 <= i < |s|
      ensures r[i] == s[i].(locked := false)
    {
      assert Record(s)[i] == RecordAnchor(s[i]);
    }
  }

  /** Recording a rebuilt snapshot gives back the snapshot: nothing is lost that was recorded. */
  lemma RecordRestore(h: Snapshot)
    ensures Record(Restore(h)) == h
  {
    var r := Record(Restore(h));
    forall i | 0 <= i < |h|
      ensures r[i] == h[i]
    {
      assert Restore(h)[i] == FromEntry(h[i]);
    }
  }

  /** `undo` (pen.py:167-173) on values: the newest snapshot is dropped; when one is left, the
      anchors are rebuilt from it; otherwise the anchors stay as they are. */
  function Undo(points: seq<AnchorState>, history: seq<Snapshot>): (r: (seq<AnchorState>, seq<Snapshot>))
    ensures |history| > 0 ==> r.1 == history[..|history| - 1]
    ensures |history| == 0 ==> r.1 == history
    ensures |history| <= 1 ==> r.0 == points
    ensures |history| >= 2 ==> r.0 == Restore(history[|history| - 2])
  {
    if |history| == 0 then (points, history)
    else
      var rest := history[..|history| - 1];
      if |rest| == 0 then (points, rest) else (Restore(rest[|rest| - 1]), rest)
  }

  /** A push followed by an undo leaves the history as it was before the push, and, when that
      history is not empty, the anchors as in its newest snapshot. */
  lemma UndoAfterPush(points: seq<AnchorState>, history: seq<Snapshot>)
    ensures Undo(points, history + [Record(points)]).1 == history
    ensures |history| > 0 ==> Undo(points, history + [Record(points)]).0 == Restore(history[|history| - 1])
    ensures |history| == 0 ==> Undo(points, history + [Record(points)]).0 == points
  {
    assert (history + [Record(points)])[..|history|] == history;
  }

  /** When the history holds the committed states, each snapshot the record of the anchors at
      that time, a push and an undo bring back the anchors of the previous commit, lock flags
      cleared. */
  lemma UndoRestoresPreviousCommit(before: seq<AnchorState>, after: seq<AnchorState>, history: seq<Snapshot>)
    requires |history| > 0 && history[|history| - 1] == Record(before)
    ensures Undo(after, history + [Record(after)]) == (Unlocked(before), history)
  {
    UndoAfterPush(after, history);
    RestoreRecord(before);
  }

  /** The first snapshot is never undone: at one snapshot or none, undo leaves the anchors as
      they are, and a second undo changes nothing more. */
  lemma UndoAtFloor(points: seq<AnchorState>, history: seq<Snapshot>)
    requires |history| <= 1
    ensures Undo(points, history) == (points, [])
    ensures Undo(Undo(points, history).0, Undo(points, history).1) == (points, [])
  {
  }
}
