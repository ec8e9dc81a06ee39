/** Delta encoding: turning the full rows of a finished snapshot into interval versions. */
module Promotion {
  import opened Models
  import opened Tables

  predicate Newest(t: Tables, id: SnapshotId) {
    id in t.snapshots &&
    forall k :: k in t.snapshots && t.snapshots[k].rootPath == t.snapshots[id].rootPath ==> k <= id
  }

  /** What collection guarantees when it finalizes a snapshot as complete: one writer at a
      time, and every new snapshot takes the next id. */
  predicate Promotable(t: Tables, id: SnapshotId) {
    Coherent(t) && Newest(t, id) && t.snapshots[id].status == Running
  }

  predicate HasState(t: Tables, id: SnapshotId, pathId: PathId, state: State) {
    DiagnosticKey(id, pathId) in t.diagnostics && t.diagnostics[DiagnosticKey(id, pathId)] == state
  }

  predicate IsOpen(i: Interval, root: Root) {
    i.root == root && i.to.Null?
  }

  /** UPDATE ... SET valid_to WHERE root_path = root AND path_id IN pathIds AND valid_to IS NULL. */
  function CloseOpen(intervals: set<Interval>, root: Root, pathIds: set<PathId>, id: SnapshotId): set<Interval> {
    set i | i in intervals :: if IsOpen(i, root) && i.pathId in pathIds then i.(to := Id(id)) else i
  }

  /** The paths whose open version differs from the new snapshot's row, or has none. */
  function Stale(t: Tables, root: Root, id: SnapshotId): set<PathId> {
    set i | i in t.intervals && IsOpen(i, root) && !HasState(t, id, i.pathId, i.state) :: i.pathId
  }

  predicate Continues(t: Tables, root: Root, pathId: PathId, state: State) {
    exists i :: i in t.intervals && IsOpen(i, root) && i.pathId == pathId && i.state == state
  }

  /** The rows that no open version continues. */
  function Fresh(t: Tables, root: Root, id: SnapshotId): set<Interval> {
    set k | k in t.diagnostics && k.snapshotId == id && !Continues(t, root, k.pathId, t.diagnostics[k])
      :: Interval(root, k.pathId, id, Null, t.diagnostics[k])
  }

  function WithoutDiagnostics(diagnostics: map<DiagnosticKey, State>, ids: set<SnapshotId>): map<DiagnosticKey, State> {
    map k | k in diagnostics && k.snapshotId !in ids :: diagnostics[k]
  }

  function Promote(t: Tables, id: SnapshotId): Tables
    requires id in t.snapshots
  {
    var root := t.snapshots[id].rootPath;
    t.(intervals := CloseOpen(t.intervals, root, Stale(t, root, id), id) + Fresh(t, root, id),
       diagnostics := WithoutDiagnostics(t.diagnostics, {id}))
  }

  function SetStatus(t: Tables, id: SnapshotId, status: Status, now: int): Tables
    requires id in t.snapshots
  {
    t.(snapshots := t.snapshots[id := t.snapshots[id].(status := status, finishedAt := Some(now))])
  }

  /** Finalizing promotes a complete snapshot and leaves the rows of any other alone. */
  function Finalize(t: Tables, id: SnapshotId, status: Status, now: int): Tables
    requires id in t.snapshots
  {
    SetStatus(if status == Complete then Promote(t, id) else t, id, status, now)
  }

  // ----- promotion keeps the store coherent

  lemma BoundariesAreOlder(t: Tables, id: SnapshotId, i: Interval)
    requires Promotable(t, id) && i in t.intervals && i.root == t.snapshots[id].rootPath
    ensures i.from < id && (i.to.Id? ==> i.to.id < id)
  {
    assert WellFormed(t, i);
  }

  /** Every version after promotion is an old one, an old open one that ends here, or a
      new open one that starts here for a path with no other open version. */
  lemma PromotedShape(t: Tables, id: SnapshotId, j: Interval)
    requires Promotable(t, id) && j in Promote(t, id).intervals
    ensures
      var root := t.snapshots[id].rootPath;
      || (j in t.intervals && (IsOpen(j, root) ==> HasState(t, id, j.pathId, j.state)))
      || (j.to == Id(id) && j.root == root && j.(to := Null) in t.intervals &&
          !HasState(t, id, j.pathId, j.state))
      || (j.root == root && j.from == id && j.to.Null? && HasState(t, id, j.pathId, j.state) &&
          !Continues(t, root, j.pathId, j.state))
  {
  }

  lemma PromotedAreApart(t: Tables, id: SnapshotId, i: Interval, j: Interval)
    requires Promotable(t, id)
    requires i in Promote(t, id).intervals && j in Promote(t, id).intervals && i != j && i.SameKey(j)
    ensures i.Apart(j)
  {
    var root := t.snapshots[id].rootPath;
    PromotedShape(t, id, i);
    PromotedShape(t, id, j);
    forall k | k in t.intervals && k.root == root
      ensures k.from < id && (k.to.Id? ==> k.to.id < id)
    {
      BoundariesAreOlder(t, id, k);
    }
    var oldI := if i.to == Id(id) then i.(to := Null) else i;
    var oldJ := if j.to == Id(id) then j.(to := Null) else j;
    if oldI in t.intervals && oldJ in t.intervals {
      assert oldI != oldJ;
      assert oldI.Apart(oldJ);
    }
  }

  lemma PromoteKeepsCoherent(t: Tables, id: SnapshotId, now: int)
    requires Promotable(t, id)
    ensures Coherent(Finalize(t, id, Complete, now))
  {
    var after := Finalize(t, id, Complete, now);
    forall j | j in after.intervals
      ensures WellFormed(after, j)
    {
      PromotedShape(t, id, j);
      if j in t.intervals {
        assert WellFormed(t, j);
      } else if j.to == Id(id) {
        assert WellFormed(t, j.(to := Null));
        BoundariesAreOlder(t, id, j.(to := Null));
      }
    }
    forall i, j | i in after.intervals && j in after.intervals && i != j && i.SameKey(j)
      ensures i.Apart(j)
    {
      PromotedAreApart(t, id, i, j);
    }
  }

  // ----- promotion preserves what every snapshot reads

  /** The new snapshot reads back exactly the rows it was promoted from. */
  lemma PromotedReadsItsRows(t: Tables, id: SnapshotId)
    requires Promotable(t, id)
    ensures CoveringStates(Promote(t, id).intervals, t.snapshots[id].rootPath, id)
            == DiagnosticStates(t.diagnostics, id)
  {
    var root := t.snapshots[id].rootPath;
    var after := Promote(t, id).intervals;
    forall e | e in CoveringStates(after, root, id)
      ensures e in DiagnosticStates(t.diagnostics, id)
    {
      var j :| j in after && j.root == root && j.Covers(id) && e == StateRow(j.pathId, j.state);
      PromotedShape(t, id, j);
      if j in t.intervals {
        BoundariesAreOlder(t, id, j);
      }
      assert DiagnosticKey(id, j.pathId) in t.diagnostics;
    }
    forall e | e in DiagnosticStates(t.diagnostics, id)
      ensures e in CoveringStates(after, root, id)
    {
      var k :| k in t.diagnostics && k.snapshotId == id && e == StateRow(k.pathId, t.diagnostics[k]);
      if Continues(t, root, k.pathId, t.diagnostics[k]) {
        var i :| i in t.intervals && IsOpen(i, root) && i.pathId == k.pathId && i.state == t.diagnostics[k];
        BoundariesAreOlder(t, id, i);
        OpenSurvives(t, id, i);
        assert i.Covers(id);
      } else {
        var j := Interval(root, k.pathId, id, Null, t.diagnostics[k]);
        assert j in Fresh(t, root, id);
        assert j.Covers(id);
      }
    }
  }

  lemma OpenSurvives(t: Tables, id: SnapshotId, i: Interval)
    requires Promotable(t, id) && i in t.intervals
    requires IsOpen(i, t.snapshots[id].rootPath) && HasState(t, id, i.pathId, i.state)
    ensures i in Promote(t, id).intervals
  {
  }

  /** No other snapshot of any root reads anything else than before. */
  lemma PromoteKeepsOtherReads(t: Tables, id: SnapshotId, root: Root, other: SnapshotId)
    requires Promotable(t, id)
    requires root == t.snapshots[id].rootPath ==> other < id
    ensures CoveringStates(Promote(t, id).intervals, root, other) == CoveringStates(t.intervals, root, other)
  {
    var promotedRoot := t.snapshots[id].rootPath;
    var after := Promote(t, id).intervals;
    forall e | e in CoveringStates(after, root, other)
      ensures e in CoveringStates(t.intervals, root, other)
    {
      var j :| j in after && j.root == root && j.Covers(other) && e == StateRow(j.pathId, j.state);
      PromotedShape(t, id, j);
      if j !in t.intervals {
        var i := j.(to := Null);
        assert i in t.intervals && i.Covers(other);
      }
    }
    forall e | e in CoveringStates(t.intervals, root, other)
      ensures e in CoveringStates(after, root, other)
    {
      var i :| i in t.intervals && i.root == root && i.Covers(other) && e == StateRow(i.pathId, i.state);
      var j := if IsOpen(i, promotedRoot) && i.pathId in Stale(t, promotedRoot, id) then i.(to := Id(id)) else i;
      assert j in CloseOpen(t.intervals, promotedRoot, Stale(t, promotedRoot, id), id);
      assert j.Covers(other);
    }
  }
}
