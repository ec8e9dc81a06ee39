/** A retention run on the tables, the states it commits on the way, and the order of runs. */
module Pruning {
  import opened Models
  import opened Tables
  import opened Promotion
  import opened Normalization
  import opened Operations
  import opened Retention
  import opened RetentionLaws

  /** What a run has committed after normalizing for the retained set, deleting some of the
      other snapshots and perhaps collecting paths. */
  function PartlyPruned(t: Tables, retained: set<SnapshotId>, deleted: set<SnapshotId>, collected: bool): Tables {
    var rows := DeleteSnapshots(Normalize(t, retained), deleted);
    if collected then DeleteOrphanPaths(rows) else rows
  }

  function Prune(t: Tables, retained: set<SnapshotId>): Tables {
    PartlyPruned(t, retained, t.snapshots.Keys - retained, true)
  }

  /** Every state a run commits is coherent and reads all that it retains as before: complete
      snapshots from moved intervals, the others from their diagnostic rows. */
  lemma PartlyPrunedKeepsReads(t: Tables, retained: set<SnapshotId>, deleted: set<SnapshotId>, collected: bool)
    requires Coherent(t) && deleted !! retained
    ensures Coherent(PartlyPruned(t, retained, deleted, collected))
    ensures forall k :: k in t.snapshots && k in retained ==>
              k in PartlyPruned(t, retained, deleted, collected).snapshots &&
              Rows(PartlyPruned(t, retained, deleted, collected), k) == Rows(t, k)
  {
    var moved := Normalize(t, retained);
    NormalizeKeepsCoherent(t, retained);
    DeleteReads(moved, deleted);
    var rows := DeleteSnapshots(moved, deleted);
    if collected {
      DeleteOrphanPathsReads(rows);
    }
    forall k | k in t.snapshots && k in retained
      ensures Rows(PartlyPruned(t, retained, deleted, collected), k) == Rows(t, k)
    {
      if t.snapshots[k].status == Complete {
        NormalizeKeepsRetained(t, retained, k);
      } else {
        assert SnapshotState(moved, k) == SnapshotState(t, k);
      }
    }
  }

  // ----- what is left of the dictionary

  /** The row names the path in one of its columns. */
  predicate Names(r: DirectoryAggregate, path: Bytes) {
    r.path == path || r.parentPath == Some(path) || r.topChildPath == Some(path)
  }

  /** A row that is left names the id in one of its columns. */
  predicate IsNamed(t: Tables, id: PathId) {
    (exists i :: i in t.intervals && (i.pathId == id || i.state.parentId == Id(id) || i.state.topChildId == Id(id))) ||
    (exists k :: k in t.diagnostics &&
      (k.pathId == id || t.diagnostics[k].parentId == Id(id) || t.diagnostics[k].topChildId == Id(id)))
  }

  /** After a prune the dictionary holds exactly the ids that a row that is left names. */
  lemma PrunedIdsAreNamed(t: Tables, retained: set<SnapshotId>, id: PathId)
    ensures id in Prune(t, retained).paths <==> id in t.paths && IsNamed(Prune(t, retained), id)
  {
  }

  /** The row is stored, as a version or as a diagnostic row. */
  predicate IsStored(t: Tables, e: StateRow) {
    (exists i :: i in t.intervals && e == StateRow(i.pathId, i.state)) ||
    (exists k :: k in t.diagnostics && e == StateRow(k.pathId, t.diagnostics[k]))
  }

  predicate IsRead(t: Tables, e: StateRow) {
    exists k :: k in t.snapshots && e in SnapshotState(t, k)
  }

  /** A version that is left covers the retained complete snapshot at which it starts. */
  lemma LeftVersionIsRead(t: Tables, retained: set<SnapshotId>, i: Interval)
    requires Coherent(t) && i in Prune(t, retained).intervals
    ensures IsRead(Prune(t, retained), StateRow(i.pathId, i.state))
  {
    var after := Prune(t, retained);
    PartlyPrunedKeepsReads(t, retained, t.snapshots.Keys - retained, true);
    var j :| j in t.intervals && Survives(Kept(t.snapshots, retained, j.root), j) &&
             i == Move(Kept(t.snapshots, retained, j.root), j);
    assert i.from in Kept(t.snapshots, retained, j.root) && WellFormed(after, i);
    assert StateRow(i.pathId, i.state) in SnapshotState(after, i.from);
  }

  /** Every row that is left is one that a snapshot reads. */
  lemma StoredIsRead(t: Tables, retained: set<SnapshotId>, e: StateRow)
    requires Coherent(t) && IsStored(Prune(t, retained), e)
    ensures IsRead(Prune(t, retained), e)
  {
    var after := Prune(t, retained);
    if i :| i in after.intervals && e == StateRow(i.pathId, i.state) {
      LeftVersionIsRead(t, retained, i);
    } else {
      PartlyPrunedKeepsReads(t, retained, t.snapshots.Keys - retained, true);
      var k :| k in after.diagnostics && e == StateRow(k.pathId, after.diagnostics[k]);
      assert k.snapshotId in after.snapshots && e in SnapshotState(after, k.snapshotId);
    }
  }

  lemma DecodedNames(t: Tables, k: SnapshotId, e: StateRow, path: Bytes)
    requires Coherent(t) && k in t.snapshots && e in SnapshotState(t, k)
    ensures e.pathId in t.paths && Decode(t.paths, e) in Rows(t, k)
    ensures Names(Decode(t.paths, e), path) <==>
            exists id :: id in t.paths && t.paths[id] == path &&
                         (e.pathId == id || e.state.parentId == Id(id) || e.state.topChildId == Id(id))
  {
    StatesResolve(t, k);
    assert Resolves(t.paths, e);
    if e.state.parentId.Id? {
      assert e.state.parentId.id in t.paths;
    }
    if e.state.topChildId.Id? {
      assert e.state.topChildId.id in t.paths;
    }
  }

  /** A row of some snapshot names the path. */
  predicate IsUsed(t: Tables, path: Bytes) {
    exists k, r :: k in t.snapshots && r in Rows(t, k) && Names(r, path)
  }

  lemma NamedIsUsed(t: Tables, retained: set<SnapshotId>, id: PathId)
    requires Coherent(t) && id in Prune(t, retained).paths
    ensures IsUsed(Prune(t, retained), Prune(t, retained).paths[id])
  {
    var after := Prune(t, retained);
    PartlyPrunedKeepsReads(t, retained, t.snapshots.Keys - retained, true);
    PrunedIdsAreNamed(t, retained, id);
    var e := NamingRow(after, id);
    StoredIsRead(t, retained, e);
    var k :| k in after.snapshots && e in SnapshotState(after, k);
    DecodedNames(after, k, e, after.paths[id]);
  }

  lemma UsedIsKnown(t: Tables, path: Bytes)
    requires Coherent(t) && IsUsed(t, path)
    ensures path in t.paths.Values
  {
    var k, r :| k in t.snapshots && r in Rows(t, k) && Names(r, path);
    var e :| e in SnapshotState(t, k) && e.pathId in t.paths && Decode(t.paths, e) == r;
    DecodedNames(t, k, e, path);
  }

  /** After a prune the dictionary's paths are exactly those in the rows of the snapshots that are left,
      which are the retained ones. */
  lemma PrunedPathsAreUsed(t: Tables, retained: set<SnapshotId>, path: Bytes)
    requires Coherent(t)
    ensures Prune(t, retained).snapshots.Keys == t.snapshots.Keys * retained
    ensures path in Prune(t, retained).paths.Values <==> IsUsed(Prune(t, retained), path)
  {
    var after := Prune(t, retained);
    if path in after.paths.Values {
      var id :| id in after.paths && after.paths[id] == path;
      NamedIsUsed(t, retained, id);
    }
    if IsUsed(after, path) {
      PartlyPrunedKeepsReads(t, retained, t.snapshots.Keys - retained, true);
      UsedIsKnown(after, path);
    }
  }

  lemma NamingRow(t: Tables, id: PathId) returns (e: StateRow)
    requires IsNamed(t, id)
    ensures e.pathId == id || e.state.parentId == Id(id) || e.state.topChildId == Id(id)
    ensures IsStored(t, e)
  {
    if i :| i in t.intervals && (i.pathId == id || i.state.parentId == Id(id) || i.state.topChildId == Id(id)) {
      e := StateRow(i.pathId, i.state);
    } else {
      var k :| k in t.diagnostics &&
               (k.pathId == id || t.diagnostics[k].parentId == Id(id) || t.diagnostics[k].topChildId == Id(id));
      e := StateRow(k.pathId, t.diagnostics[k]);
    }
  }

  lemma DeleteTwice(t: Tables, first: set<SnapshotId>, second: set<SnapshotId>)
    ensures DeleteSnapshots(DeleteSnapshots(t, first), second) == DeleteSnapshots(t, first + second)
  {
  }

  // ----- the order of runs

  lemma FinalSnapshots(t: Tables, m: Tables, deleted: set<SnapshotId>, narrow: set<SnapshotId>)
    requires Coherent(t) && deleted !! narrow
    requires m.snapshots == t.snapshots - deleted
    requires m.diagnostics == WithoutDiagnostics(t.diagnostics, deleted)
    ensures m.snapshots - (m.snapshots.Keys - narrow) == t.snapshots - (t.snapshots.Keys - narrow)
    ensures WithoutDiagnostics(m.diagnostics, m.snapshots.Keys - narrow)
            == WithoutDiagnostics(t.diagnostics, t.snapshots.Keys - narrow)
  {
  }

  /** A path that is referenced after a normalization was referenced before it. */
  lemma ReferencesShrink(t: Tables, m: Tables, retained: set<SnapshotId>, id: PathId)
    requires m.intervals == NormalizedIntervals(t, retained)
    requires forall k :: k in m.diagnostics ==> k in t.diagnostics && m.diagnostics[k] == t.diagnostics[k]
    requires IsReferenced(m, id)
    ensures IsReferenced(t, id)
  {
  }

  /** Collecting paths early does not matter when nothing comes to be referenced later. */
  lemma CollectingTwice(rows: Tables, late: Tables, collected: bool)
    requires late.paths == (if collected then DeleteOrphanPaths(rows).paths else rows.paths)
    requires forall id :: IsReferenced(late, id) ==> IsReferenced(rows, id)
    ensures DeleteOrphanPaths(late) == DeleteOrphanPaths(late.(paths := rows.paths))
  {
    forall id
      ensures IsReferenced(late.(paths := rows.paths), id) <==> IsReferenced(late, id)
    {
    }
  }

  /** Completing, for a smaller retained set, a run that stopped anywhere after its first
      commit gives the tables of the second run alone. */
  lemma PruneAfterPartialPrune(t: Tables, wide: set<SnapshotId>, deleted: set<SnapshotId>, collected: bool,
                               narrow: set<SnapshotId>)
    requires Coherent(t) && deleted !! wide && narrow <= wide && narrow <= t.snapshots.Keys
    ensures Prune(PartlyPruned(t, wide, deleted, collected), narrow) == Prune(t, narrow)
  {
    var m := PartlyPruned(t, wide, deleted, collected);
    var rows := DeleteSnapshots(Normalize(t, wide), deleted);
    var late := DeleteSnapshots(Normalize(m, narrow), m.snapshots.Keys - narrow);
    NormalizeCompose(t, m, wide, narrow);
    FinalSnapshots(t, m, deleted, narrow);
    forall id | IsReferenced(late, id)
      ensures IsReferenced(rows, id)
    {
      ReferencesShrink(rows, late, narrow, id);
    }
    CollectingTwice(rows, late, collected);
  }

  /** Running retention at t1, stopping there at any commit point or finishing, and running
      it again at a later t2 leaves exactly the tables of a single run at t2. */
  lemma PruneScheduleIsInvisible(t: Tables, policy: RetentionPolicy, calendar: Calendar, t1: int, t2: int,
                                 deleted: set<SnapshotId>, collected: bool)
    requires Coherent(t) && policy.Valid() && t1 <= t2
    requires deleted !! Retained(t.snapshots, CutoffsAt(policy, t1), calendar)
    ensures
      var first := PartlyPruned(t, Retained(t.snapshots, CutoffsAt(policy, t1), calendar), deleted, collected);
      var retained := Retained(t.snapshots, CutoffsAt(policy, t2), calendar);
      Retained(first.snapshots, CutoffsAt(policy, t2), calendar) == retained &&
      Prune(first, retained) == Prune(t, retained)
  {
    var c1 := CutoffsAt(policy, t1);
    var c2 := CutoffsAt(policy, t2);
    var wide := Retained(t.snapshots, c1, calendar);
    var narrow := Retained(t.snapshots, c2, calendar);
    LaterRunHasLaterCutoffs(policy, t1, t2);
    forall k | k in narrow
      ensures k in wide
    {
      KeptLaterIsKeptEarlier(t.snapshots, t.snapshots, c1, c2, calendar, k);
    }
    var first := PartlyPruned(t, wide, deleted, collected);
    SelectionFromSuperset(first.snapshots, t.snapshots, c2, calendar);
    PruneAfterPartialPrune(t, wide, deleted, collected, narrow);
  }
}
