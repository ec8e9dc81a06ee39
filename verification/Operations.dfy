/** The remaining row operations: new snapshots, row insertion, snapshot deletion and the
    collection of unreferenced dictionary paths. */
module Operations {
  import opened Models
  import opened Ids
  import opened Tables
  import opened Promotion

  function CreateSnapshot(t: Tables, root: Root, now: int): Tables {
    t.(snapshots := t.snapshots[NextId(t.snapshots.Keys) := Snapshot(root, Running, now, None)])
  }

  // ----- inserting directory rows

  /** An insert fails on a missing snapshot or a second row for the same path. */
  datatype Outcome = Rejected | Applied(tables: Tables)

  datatype Encoded = Encoded(paths: map<PathId, Bytes>, row: StateRow)

  function Encode(paths: map<PathId, Bytes>, row: DirectoryAggregate): (e: Encoded)
    requires Injective(paths)
    ensures Extends(paths, e.paths) && Injective(e.paths)
    ensures Resolves(e.paths, e.row) && Decode(e.paths, e.row) == row
  {
    var (p1, pathId) := ResolvePath(paths, row.path);
    var (p2, parentId) := ResolveOptional(p1, row.parentPath);
    var (p3, topChildId) := ResolveOptional(p2, row.topChildPath);
    assert p3[pathId] == p2[pathId] == p1[pathId];
    assert parentId.Id? ==> parentId.id in p3;
    Encoded(p3, StateRow(pathId, State(parentId, topChildId, row.facts)))
  }

  function InsertRow(t: Tables, id: SnapshotId, row: DirectoryAggregate): Outcome
    requires Injective(t.paths)
  {
    var e := Encode(t.paths, row);
    var key := DiagnosticKey(id, e.row.pathId);
    if id !in t.snapshots || key in t.diagnostics then Rejected
    else Applied(t.(paths := e.paths, diagnostics := t.diagnostics[key := e.row.state]))
  }

  function InsertRows(t: Tables, id: SnapshotId, rows: seq<DirectoryAggregate>): (r: Outcome)
    requires Injective(t.paths)
    ensures r.Applied? ==> Injective(r.tables.paths)
  {
    if rows == [] then Applied(t)
    else
      match InsertRows(t, id, rows[..|rows| - 1])
      case Rejected => Rejected
      case Applied(before) => InsertRow(before, id, rows[|rows| - 1])
  }

  lemma InsertRowCoherent(t: Tables, id: SnapshotId, row: DirectoryAggregate)
    requires Coherent(t) && id in t.snapshots && t.snapshots[id].status != Complete
    requires InsertRow(t, id, row).Applied?
    ensures Coherent(InsertRow(t, id, row).tables)
  {
  }

  lemma InsertRowStates(t: Tables, id: SnapshotId, row: DirectoryAggregate)
    requires Coherent(t) && id in t.snapshots && t.snapshots[id].status != Complete
    requires InsertRow(t, id, row).Applied?
    ensures SnapshotState(InsertRow(t, id, row).tables, id) == SnapshotState(t, id) + {Encode(t.paths, row).row}
  {
    var after := InsertRow(t, id, row).tables;
    var e := Encode(t.paths, row);
    forall s | s in SnapshotState(t, id)
      ensures s in SnapshotState(after, id)
    {
      var k :| k in t.diagnostics && k.snapshotId == id && s == StateRow(k.pathId, t.diagnostics[k]);
      assert k in after.diagnostics;
    }
    assert DiagnosticKey(id, e.row.pathId) in after.diagnostics;
  }

  lemma InsertRowReads(t: Tables, id: SnapshotId, row: DirectoryAggregate)
    requires Coherent(t) && id in t.snapshots && t.snapshots[id].status != Complete
    requires InsertRow(t, id, row).Applied?
    ensures
      var after := InsertRow(t, id, row).tables;
      Coherent(after) && after.snapshots == t.snapshots && after.intervals == t.intervals &&
      Rows(after, id) == Rows(t, id) + {row} &&
      forall k :: k in t.snapshots && k != id ==> Rows(after, k) == Rows(t, k)
  {
    var after := InsertRow(t, id, row).tables;
    InsertRowCoherent(t, id, row);
    InsertRowStates(t, id, row);
    var before := SnapshotState(t, id);
    StatesResolve(t, id);
    DecodeUnion(after.paths, before, Encode(t.paths, row).row);
    DecodeExtends(t.paths, after.paths, before);
    forall k | k in t.snapshots && k != id
      ensures Rows(after, k) == Rows(t, k)
    {
      InsertRowElsewhere(t, id, row, k);
    }
  }

  lemma InsertRowElsewhere(t: Tables, id: SnapshotId, row: DirectoryAggregate, k: SnapshotId)
    requires Coherent(t) && id in t.snapshots && t.snapshots[id].status != Complete
    requires InsertRow(t, id, row).Applied? && k in t.snapshots && k != id
    ensures k in InsertRow(t, id, row).tables.snapshots && Rows(InsertRow(t, id, row).tables, k) == Rows(t, k)
  {
    var after := InsertRow(t, id, row).tables;
    StatesResolve(t, k);
    assert SnapshotState(after, k) == SnapshotState(t, k);
    DecodeExtends(t.paths, after.paths, SnapshotState(t, k));
  }

  lemma DecodeUnion(paths: map<PathId, Bytes>, states: set<StateRow>, e: StateRow)
    requires e.pathId in paths
    ensures DecodeAll(paths, states + {e}) == DecodeAll(paths, states) + {Decode(paths, e)}
  {
  }

  function Members<T>(rows: seq<T>): set<T> {
    set r | r in rows
  }

  /** An accepted insert adds exactly the given rows to the snapshot, and no other snapshot
      reads anything else than before. */
  lemma {:induction false} InsertRowsReads(t: Tables, id: SnapshotId, rows: seq<DirectoryAggregate>)
    requires Coherent(t) && id in t.snapshots && t.snapshots[id].status != Complete
    requires InsertRows(t, id, rows).Applied?
    ensures
      var after := InsertRows(t, id, rows).tables;
      Coherent(after) && after.snapshots == t.snapshots && after.intervals == t.intervals &&
      Rows(after, id) == Rows(t, id) + Members(rows) &&
      forall k :: k in t.snapshots && k != id ==> Rows(after, k) == Rows(t, k)
    decreases |rows|
  {
    if rows == [] {
      assert Members(rows) == {};
    } else {
      var init := rows[..|rows| - 1];
      var last := rows[|rows| - 1];
      InsertRowsReads(t, id, init);
      var before := InsertRows(t, id, init).tables;
      InsertRowReads(before, id, last);
      MembersSnoc(rows);
    }
  }

  lemma MembersSnoc<T>(rows: seq<T>)
    requires rows != []
    ensures Members(rows) == Members(rows[..|rows| - 1]) + {rows[|rows| - 1]}
  {
  }

  predicate DistinctPaths(rows: seq<DirectoryAggregate>) {
    forall i, j :: 0 <= i < j < |rows| ==> rows[i].path != rows[j].path
  }

  predicate HasPath(rows: set<DirectoryAggregate>, path: Bytes) {
    exists r :: r in rows && r.path == path
  }

  predicate PathAmong(rows: seq<DirectoryAggregate>, path: Bytes) {
    exists i :: 0 <= i < |rows| && rows[i].path == path
  }

  lemma DistinctSnoc(init: seq<DirectoryAggregate>, last: DirectoryAggregate)
    ensures DistinctPaths(init + [last]) <==> DistinctPaths(init) && !PathAmong(init, last.path)
  {
    var rows := init + [last];
    assert forall i :: 0 <= i < |init| ==> rows[i] == init[i];
    if PathAmong(init, last.path) {
      var i :| 0 <= i < |init| && init[i].path == last.path;
      assert rows[i].path == rows[|init|].path;
    }
  }

  lemma PathOfUnion(before: set<DirectoryAggregate>, init: seq<DirectoryAggregate>, path: Bytes)
    ensures HasPath(before + Members(init), path) <==> HasPath(before, path) || PathAmong(init, path)
  {
  }

  /** Insertion succeeds exactly when no path occurs twice, counting the rows already there. */
  lemma {:induction false} InsertRowsAccepted(t: Tables, id: SnapshotId, rows: seq<DirectoryAggregate>)
    requires Coherent(t) && id in t.snapshots && t.snapshots[id].status != Complete
    ensures InsertRows(t, id, rows).Applied? <==>
            DistinctPaths(rows) && forall r :: r in rows ==> !HasPath(Rows(t, id), r.path)
    decreases |rows|
  {
    if rows != [] {
      var init := rows[..|rows| - 1];
      var last := rows[|rows| - 1];
      assert rows == init + [last];
      InsertRowsAccepted(t, id, init);
      DistinctSnoc(init, last);
      if InsertRows(t, id, init).Applied? {
        InsertRowsReads(t, id, init);
        PathOfUnion(Rows(t, id), init, last.path);
        InsertProbe(InsertRows(t, id, init).tables, id, last);
      }
    }
  }

  lemma InsertProbe(t: Tables, id: SnapshotId, row: DirectoryAggregate)
    requires Coherent(t) && id in t.snapshots && t.snapshots[id].status != Complete
    ensures InsertRow(t, id, row).Applied? <==> !HasPath(Rows(t, id), row.path)
  {
  }

  /** A snapshot without rows accepts any rows with distinct paths and then reads exactly them. */
  lemma FreshInsert(t: Tables, id: SnapshotId, rows: seq<DirectoryAggregate>)
    requires Coherent(t) && id in t.snapshots && t.snapshots[id].status != Complete && Rows(t, id) == {}
    requires DistinctPaths(rows)
    ensures InsertRows(t, id, rows).Applied?
    ensures Rows(InsertRows(t, id, rows).tables, id) == Members(rows)
  {
    InsertRowsAccepted(t, id, rows);
    InsertRowsReads(t, id, rows);
  }

  // ----- deleting snapshots

  /** DELETE FROM snapshots; diagnostic rows go with their snapshot. */
  function DeleteSnapshots(t: Tables, ids: set<SnapshotId>): Tables {
    t.(snapshots := t.snapshots - ids, diagnostics := WithoutDiagnostics(t.diagnostics, ids))
  }

  predicate NoBoundaryIn(t: Tables, ids: set<SnapshotId>) {
    forall i :: i in t.intervals ==> i.from !in ids && (i.to.Id? ==> i.to.id !in ids)
  }

  lemma DeleteReads(t: Tables, ids: set<SnapshotId>)
    requires Coherent(t) && NoBoundaryIn(t, ids)
    ensures Coherent(DeleteSnapshots(t, ids))
    ensures forall k :: k in t.snapshots && k !in ids ==> Rows(DeleteSnapshots(t, ids), k) == Rows(t, k)
  {
    var after := DeleteSnapshots(t, ids);
    forall i | i in after.intervals
      ensures WellFormed(after, i)
    {
      assert WellFormed(t, i);
    }
    forall k | k in t.snapshots && k !in ids
      ensures Rows(after, k) == Rows(t, k)
    {
      assert SnapshotState(after, k) == SnapshotState(t, k) by {
        forall d | d in t.diagnostics && d.snapshotId == k
          ensures d in after.diagnostics
        {
        }
      }
    }
  }

  // ----- collecting paths

  predicate IsReferenced(t: Tables, id: PathId) {
    (exists i :: i in t.intervals && i.Refers(id)) ||
    (exists k :: k in t.diagnostics &&
       (k.pathId == id || t.diagnostics[k].parentId == Id(id) || t.diagnostics[k].topChildId == Id(id)))
  }

  /** DELETE FROM paths WHERE no interval or diagnostic row names the id. */
  function DeleteOrphanPaths(t: Tables): Tables {
    t.(paths := map id | id in t.paths && IsReferenced(t, id) :: t.paths[id])
  }

  /** Collecting paths, after which their ids may be handed out again, changes no read. */
  lemma DeleteOrphanPathsReads(t: Tables)
    requires Coherent(t)
    ensures Coherent(DeleteOrphanPaths(t))
    ensures forall k :: k in t.snapshots ==> Rows(DeleteOrphanPaths(t), k) == Rows(t, k)
  {
    var after := DeleteOrphanPaths(t);
    forall i | i in t.intervals
      ensures Resolves(after.paths, StateRow(i.pathId, i.state)) && WellFormed(after, i)
    {
      assert WellFormed(t, i);
      assert i.Refers(i.pathId);
      if i.state.parentId.Id? { assert i.Refers(i.state.parentId.id); }
      if i.state.topChildId.Id? { assert i.Refers(i.state.topChildId.id); }
    }
    forall d | d in t.diagnostics
      ensures Resolves(after.paths, StateRow(d.pathId, t.diagnostics[d]))
    {
      assert IsReferenced(t, d.pathId);
      if t.diagnostics[d].parentId.Id? { assert IsReferenced(t, t.diagnostics[d].parentId.id); }
      if t.diagnostics[d].topChildId.Id? { assert IsReferenced(t, t.diagnostics[d].topChildId.id); }
    }
    forall k | k in t.snapshots
      ensures Rows(after, k) == Rows(t, k)
    {
      StatesResolve(after, k);
      DecodeExtends(after.paths, t.paths, SnapshotState(t, k));
    }
  }
}
