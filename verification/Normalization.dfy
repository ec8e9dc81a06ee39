/** Rewriting interval boundaries so that they only name retained complete snapshots. */
module Normalization {
  import opened Models
  import opened Ids
  import opened Tables

  /** The retained complete snapshots of a root. */
  function Kept(snapshots: map<SnapshotId, Snapshot>, retained: set<SnapshotId>, root: Root): set<SnapshotId> {
    set k | k in retained && k in snapshots && snapshots[k].status == Complete && snapshots[k].rootPath == root
  }

  predicate Survives(kept: set<SnapshotId>, i: Interval) {
    exists k :: k in kept && i.Covers(k)
  }

  /** SELECT MIN(id) over the retained snapshots at or above a boundary; NULL if there is none. */
  function MoveUp(kept: set<SnapshotId>, boundary: NullableId): NullableId {
    match boundary
    case Null => Null
    case Id(b) => Ceil(kept, b)
  }

  /** SELECT MIN(id) over the retained snapshots that the version covers. */
  function FirstCovered(kept: set<SnapshotId>, i: Interval): (from: SnapshotId)
    requires Survives(kept, i)
    ensures from in kept && i.Covers(from)
    ensures forall k :: k in kept && i.Covers(k) ==> from <= k
    ensures Ceil(kept, i.from) == Id(from)
  {
    Ceil(kept, i.from).id
  }

  function Move(kept: set<SnapshotId>, i: Interval): Interval
    requires Survives(kept, i)
  {
    i.(from := FirstCovered(kept, i), to := MoveUp(kept, i.to))
  }

  function NormalizedIntervals(t: Tables, retained: set<SnapshotId>): set<Interval> {
    set i | i in t.intervals && Survives(Kept(t.snapshots, retained, i.root), i)
      :: Move(Kept(t.snapshots, retained, i.root), i)
  }

  function Normalize(t: Tables, retained: set<SnapshotId>): Tables {
    t.(intervals := NormalizedIntervals(t, retained))
  }

  // ----- what a moved version covers

  /** A moved version covers an id exactly when the original covers the greatest retained
      snapshot at or below that id. */
  lemma MovedCoversFloor(kept: set<SnapshotId>, i: Interval, id: SnapshotId)
    requires Survives(kept, i)
    ensures Move(kept, i).Covers(id) <==> Floor(kept, id).Id? && i.Covers(Floor(kept, id).id)
  {
  }

  /** After normalization any snapshot id reads what the greatest retained complete
      snapshot of its root at or below it read before, and nothing if there is none. */
  lemma NormalizeReadsFloor(t: Tables, retained: set<SnapshotId>, root: Root, id: SnapshotId)
    ensures
      var floor := Floor(Kept(t.snapshots, retained, root), id);
      CoveringStates(NormalizedIntervals(t, retained), root, id)
      == if floor.Null? then {} else CoveringStates(t.intervals, root, floor.id)
  {
    var kept := Kept(t.snapshots, retained, root);
    var floor := Floor(kept, id);
    var before := if floor.Null? then {} else CoveringStates(t.intervals, root, floor.id);
    var after := CoveringStates(NormalizedIntervals(t, retained), root, id);
    forall e | e in after
      ensures e in before
    {
      var m :| m in NormalizedIntervals(t, retained) && m.root == root && m.Covers(id) &&
               e == StateRow(m.pathId, m.state);
      var i :| i in t.intervals && Survives(Kept(t.snapshots, retained, i.root), i) &&
               m == Move(Kept(t.snapshots, retained, i.root), i);
      MovedCoversFloor(kept, i, id);
    }
    forall e | e in before
      ensures e in after
    {
      var i :| i in t.intervals && i.root == root && i.Covers(floor.id) && e == StateRow(i.pathId, i.state);
      assert Survives(kept, i);
      MovedCoversFloor(kept, i, id);
      assert Move(kept, i) in NormalizedIntervals(t, retained);
    }
  }

  /** Retained complete snapshots read what they read before. */
  lemma NormalizeKeepsRetained(t: Tables, retained: set<SnapshotId>, id: SnapshotId)
    requires id in retained && id in t.snapshots && t.snapshots[id].status == Complete
    ensures Rows(Normalize(t, retained), id) == Rows(t, id)
  {
    var root := t.snapshots[id].rootPath;
    assert id in Kept(t.snapshots, retained, root);
    NormalizeReadsFloor(t, retained, root, id);
  }

  // ----- normalization keeps the store coherent

  lemma MovedStaysInside(kept: set<SnapshotId>, i: Interval)
    requires Survives(kept, i) && (i.to.Id? ==> i.from < i.to.id)
    ensures
      var m := Move(kept, i);
      i.from <= m.from && (i.to.Id? ==> m.from < i.to.id) &&
      (m.to.Id? ==> m.from < m.to.id && m.to.id in kept)
  {
  }

  /** No row update of the normalization collides with another row of the same key, in
      whatever order the rows are updated: old and new starts of distinct versions differ. */
  lemma NormalizeNeverCollides(t: Tables, retained: set<SnapshotId>, i: Interval, j: Interval)
    requires Coherent(t) && i in t.intervals && j in t.intervals && i != j && i.SameKey(j)
    requires Survives(Kept(t.snapshots, retained, i.root), i) && Survives(Kept(t.snapshots, retained, i.root), j)
    ensures
      var kept := Kept(t.snapshots, retained, i.root);
      {i.from, Move(kept, i).from} !! {j.from, Move(kept, j).from} &&
      Move(kept, i).Apart(Move(kept, j))
  {
    var kept := Kept(t.snapshots, retained, i.root);
    assert WellFormed(t, i) && WellFormed(t, j);
    MovedStaysInside(kept, i);
    MovedStaysInside(kept, j);
    if i.Precedes(j) {
      MovedPrecedes(kept, i, j);
    } else {
      MovedPrecedes(kept, j, i);
    }
  }

  lemma MovedPrecedes(kept: set<SnapshotId>, i: Interval, j: Interval)
    requires Survives(kept, i) && Survives(kept, j) && i.Precedes(j)
    ensures Move(kept, i).Precedes(Move(kept, j))
  {
  }

  lemma NormalizeKeepsCoherent(t: Tables, retained: set<SnapshotId>)
    requires Coherent(t)
    ensures Coherent(Normalize(t, retained))
    ensures forall i :: i in NormalizedIntervals(t, retained) ==>
              i.from in retained && (i.to.Id? ==> i.to.id in retained)
  {
    var after := Normalize(t, retained);
    forall m | m in after.intervals
      ensures WellFormed(after, m)
      ensures m.from in retained && (m.to.Id? ==> m.to.id in retained)
    {
      var i :| i in t.intervals && Survives(Kept(t.snapshots, retained, i.root), i) &&
               m == Move(Kept(t.snapshots, retained, i.root), i);
      assert WellFormed(t, i);
      MovedStaysInside(Kept(t.snapshots, retained, i.root), i);
    }
    forall m, n | m in after.intervals && n in after.intervals && m != n && m.SameKey(n)
      ensures m.Apart(n)
    {
      var i :| i in t.intervals && Survives(Kept(t.snapshots, retained, i.root), i) &&
               m == Move(Kept(t.snapshots, retained, i.root), i);
      var j :| j in t.intervals && Survives(Kept(t.snapshots, retained, j.root), j) &&
               n == Move(Kept(t.snapshots, retained, j.root), j);
      NormalizeNeverCollides(t, retained, i, j);
    }
  }

  // ----- normalizing twice

  lemma MoveCompose(wide: set<SnapshotId>, narrow: set<SnapshotId>, i: Interval)
    requires narrow <= wide && Survives(narrow, i)
    ensures Survives(wide, i) && Survives(narrow, Move(wide, i))
    ensures Move(narrow, Move(wide, i)) == Move(narrow, i)
  {
    var k :| k in narrow && i.Covers(k);
    assert k in wide;
    MovedCoversFloor(wide, i, k);
    assert Floor(wide, k) == Id(k);
    assert Move(wide, i).Covers(k);
    CeilCompose(wide, narrow, i.from);
    if i.to.Id? {
      CeilCompose(wide, narrow, i.to.id);
    }
  }

  lemma SurvivesMoved(wide: set<SnapshotId>, narrow: set<SnapshotId>, i: Interval)
    requires narrow <= wide && Survives(wide, i) && Survives(narrow, Move(wide, i))
    ensures Survives(narrow, i)
  {
  }

  lemma KeptAgrees(a: map<SnapshotId, Snapshot>, b: map<SnapshotId, Snapshot>, ids: set<SnapshotId>, root: Root)
    requires forall k :: k in ids ==> (k in a <==> k in b)
    requires forall k :: k in ids && k in b ==> a[k] == b[k]
    ensures Kept(a, ids, root) == Kept(b, ids, root)
  {
    assert forall k :: k in Kept(a, ids, root) <==> k in Kept(b, ids, root);
  }

  /** Normalizing for a retained set and later, with the snapshot table cut down to it, for
      a smaller one equals normalizing once for the smaller one. */
  lemma NormalizeCompose(t: Tables, middle: Tables, wide: set<SnapshotId>, narrow: set<SnapshotId>)
    requires middle.intervals == NormalizedIntervals(t, wide)
    requires narrow <= wide
    requires forall k :: k in narrow ==> (k in middle.snapshots <==> k in t.snapshots)
    requires forall k :: k in narrow && k in t.snapshots ==> middle.snapshots[k] == t.snapshots[k]
    ensures NormalizedIntervals(middle, narrow) == NormalizedIntervals(t, narrow)
  {
    forall root: Root
      ensures Kept(middle.snapshots, narrow, root) == Kept(t.snapshots, narrow, root)
      ensures Kept(t.snapshots, narrow, root) <= Kept(t.snapshots, wide, root)
    {
      KeptAgrees(middle.snapshots, t.snapshots, narrow, root);
    }
    forall m | m in NormalizedIntervals(middle, narrow)
      ensures m in NormalizedIntervals(t, narrow)
    {
      var j :| j in middle.intervals && Survives(Kept(middle.snapshots, narrow, j.root), j) &&
               m == Move(Kept(middle.snapshots, narrow, j.root), j);
      var i :| i in t.intervals && Survives(Kept(t.snapshots, wide, i.root), i) &&
               j == Move(Kept(t.snapshots, wide, i.root), i);
      SurvivesMoved(Kept(t.snapshots, wide, i.root), Kept(t.snapshots, narrow, i.root), i);
      MoveCompose(Kept(t.snapshots, wide, i.root), Kept(t.snapshots, narrow, i.root), i);
    }
    forall m | m in NormalizedIntervals(t, narrow)
      ensures m in NormalizedIntervals(middle, narrow)
    {
      var i :| i in t.intervals && Survives(Kept(t.snapshots, narrow, i.root), i) &&
               m == Move(Kept(t.snapshots, narrow, i.root), i);
      MoveCompose(Kept(t.snapshots, wide, i.root), Kept(t.snapshots, narrow, i.root), i);
      assert Move(Kept(t.snapshots, wide, i.root), i) in middle.intervals;
    }
  }
}
