/** Whole runs of the store, compared with the plain map from snapshot ids to full rows
    that it encodes. */
module StoreRuns {
  import opened Models
  import opened Ids
  import opened Tables
  import opened Promotion
  import opened Normalization
  import opened Operations

  /** One committed change of the tables. A process that stops between two of them, or
      rolls a transaction back, leaves a shorter run. */
  datatype Op =
    | Create(root: Root, now: int)
    | Insert(id: SnapshotId, rows: seq<DirectoryAggregate>)
    | Finish(id: SnapshotId, status: Status, now: int)
    | Rebase(retained: set<SnapshotId>)
    | Delete(ids: set<SnapshotId>)
    | CollectPaths

  /** Collection only fills and finishes running snapshots, newest of their root, except
      that an interrupt may relabel any snapshot failed; deletion follows a rebase. */
  predicate Enabled(t: Tables, op: Op)
    requires Coherent(t)
  {
    match op
    case Create(_, _) => true
    case Insert(id, rows) =>
      id in t.snapshots && t.snapshots[id].status == Running && InsertRows(t, id, rows).Applied?
    case Finish(id, status, _) =>
      id in t.snapshots &&
      (status == Failed ||
       (status == Partial && t.snapshots[id].status == Running) ||
       (status == Complete && t.snapshots[id].status == Running && Newest(t, id)))
    case Rebase(_) => true
    case Delete(ids) => NoBoundaryIn(t, ids)
    case CollectPaths => true
  }

  function Apply(t: Tables, op: Op): (after: Tables)
    requires Coherent(t) && Enabled(t, op)
    ensures Coherent(after)
  {
    match op
    case Create(root, now) =>
      CreateReads(t, root, now);
      CreateSnapshot(t, root, now)
    case Insert(id, rows) =>
      InsertRowsReads(t, id, rows);
      InsertRows(t, id, rows).tables
    case Finish(id, status, now) =>
      FinishKeepsCoherent(t, id, status, now);
      Finalize(t, id, status, now)
    case Rebase(retained) =>
      NormalizeKeepsCoherent(t, retained);
      Normalize(t, retained)
    case Delete(ids) =>
      DeleteReads(t, ids);
      DeleteSnapshots(t, ids)
    case CollectPaths =>
      DeleteOrphanPathsReads(t);
      DeleteOrphanPaths(t)
  }

  lemma CreateReads(t: Tables, root: Root, now: int)
    requires Coherent(t)
    ensures
      var after := CreateSnapshot(t, root, now);
      var id := NextId(t.snapshots.Keys);
      Coherent(after) && Rows(after, id) == {} &&
      forall k :: k in t.snapshots ==> Rows(after, k) == Rows(t, k)
  {
  }

  lemma FinishKeepsCoherent(t: Tables, id: SnapshotId, status: Status, now: int)
    requires Coherent(t) && Enabled(t, Finish(id, status, now))
    ensures Coherent(Finalize(t, id, status, now))
  {
    if status == Complete {
      PromoteKeepsCoherent(t, id, now);
    } else {
      var after := Finalize(t, id, status, now);
      forall i | i in after.intervals
        ensures WellFormed(after, i)
      {
        assert WellFormed(t, i);
      }
    }
  }

  // ----- the plain map

  /** What the store stands for: every snapshot with its full rows. */
  datatype Catalog = Catalog(snapshots: map<SnapshotId, Snapshot>, rows: map<SnapshotId, set<DirectoryAggregate>>)

  function Abstract(t: Tables): Catalog {
    Catalog(t.snapshots, map id | id in t.snapshots :: Rows(t, id))
  }

  /** A rebase replaces the rows of a complete snapshot that is not retained by those of
      the retained complete snapshot of its root before it. */
  function Rebased(c: Catalog, retained: set<SnapshotId>, id: SnapshotId): set<DirectoryAggregate>
    requires id in c.snapshots && c.rows.Keys == c.snapshots.Keys
  {
    if c.snapshots[id].status == Complete then
      match Floor(Kept(c.snapshots, retained, c.snapshots[id].rootPath), id)
      case Null => {}
      case Id(f) => c.rows[f]
    else c.rows[id]
  }

  function ApplyToCatalog(c: Catalog, op: Op): (after: Catalog)
    requires c.rows.Keys == c.snapshots.Keys
    requires op.Insert? || op.Finish? ==> op.id in c.snapshots
    ensures after.rows.Keys == after.snapshots.Keys
  {
    match op
    case Create(root, now) =>
      var id := NextId(c.snapshots.Keys);
      Catalog(c.snapshots[id := Snapshot(root, Running, now, None)], c.rows[id := {}])
    case Insert(id, rows) =>
      c.(rows := c.rows[id := c.rows[id] + Members(rows)])
    case Finish(id, status, now) =>
      var shown := if c.snapshots[id].status == Complete then {} else c.rows[id];
      Catalog(c.snapshots[id := c.snapshots[id].(status := status, finishedAt := Some(now))], c.rows[id := shown])
    case Rebase(retained) =>
      c.(rows := map id | id in c.snapshots :: Rebased(c, retained, id))
    case Delete(ids) =>
      Catalog(c.snapshots - ids, c.rows - ids)
    case CollectPaths => c
  }

  // ----- every operation commutes with reading

  lemma FinishReads(t: Tables, id: SnapshotId, status: Status, now: int)
    requires Coherent(t) && Enabled(t, Finish(id, status, now))
    ensures
      var after := Finalize(t, id, status, now);
      Rows(after, id) == (if t.snapshots[id].status == Complete then {} else Rows(t, id)) &&
      forall k :: k in t.snapshots && k != id ==> Rows(after, k) == Rows(t, k)
  {
    var after := Finalize(t, id, status, now);
    if status == Complete {
      PromotedReadsItsRows(t, id);
      assert Rows(after, id) == Rows(t, id);
      forall k | k in t.snapshots && k != id
        ensures SnapshotState(after, k) == SnapshotState(t, k)
      {
        if t.snapshots[k].status == Complete {
          PromoteKeepsOtherReads(t, id, t.snapshots[k].rootPath, k);
        } else {
          var kept := WithoutDiagnostics(t.diagnostics, {id});
          assert forall d :: d in t.diagnostics && d.snapshotId == k ==> d in kept;
        }
      }
    } else if t.snapshots[id].status == Complete {
      assert DiagnosticStates(t.diagnostics, id) == {};
    }
  }

  lemma RebaseReads(t: Tables, retained: set<SnapshotId>)
    requires Coherent(t)
    ensures forall id :: id in t.snapshots ==> Rows(Normalize(t, retained), id) == Rebased(Abstract(t), retained, id)
  {
  }

  lemma StepRefinesAt(t: Tables, op: Op, id: SnapshotId)
    requires Coherent(t) && Enabled(t, op) && id in Apply(t, op).snapshots
    ensures id in ApplyToCatalog(Abstract(t), op).rows
    ensures Rows(Apply(t, op), id) == ApplyToCatalog(Abstract(t), op).rows[id]
  {
    match op
    case Create(root, now) => CreateReads(t, root, now);
    case Insert(k, rows) => InsertRowsReads(t, k, rows);
    case Finish(k, status, now) => FinishReads(t, k, status, now);
    case Rebase(retained) => RebaseReads(t, retained);
    case Delete(ids) => DeleteReads(t, ids);
    case CollectPaths => DeleteOrphanPathsReads(t);
  }

  /** One step of the store is one step of the plain map, for every snapshot in it. */
  lemma StepRefines(t: Tables, op: Op)
    requires Coherent(t) && Enabled(t, op)
    ensures Abstract(Apply(t, op)) == ApplyToCatalog(Abstract(t), op)
  {
    assert Apply(t, op).snapshots == ApplyToCatalog(Abstract(t), op).snapshots by {
      if op.Insert? {
        InsertRowsReads(t, op.id, op.rows);
      }
    }
    forall id | id in Apply(t, op).snapshots
      ensures Rows(Apply(t, op), id) == ApplyToCatalog(Abstract(t), op).rows[id]
    {
      StepRefinesAt(t, op, id);
    }
  }

  // ----- runs

  predicate CanRun(t: Tables, ops: seq<Op>)
    requires Coherent(t)
    decreases |ops|
  {
    ops == [] || (Enabled(t, ops[0]) && CanRun(Apply(t, ops[0]), ops[1..]))
  }

  function Run(t: Tables, ops: seq<Op>): (after: Tables)
    requires Coherent(t) && CanRun(t, ops)
    ensures Coherent(after)
    decreases |ops|
  {
    if ops == [] then t else Run(Apply(t, ops[0]), ops[1..])
  }

  /** The operations make sense for the plain map too: they name snapshots it has. */
  predicate CanRunOnCatalog(c: Catalog, ops: seq<Op>)
    requires c.rows.Keys == c.snapshots.Keys
    decreases |ops|
  {
    ops == [] ||
    ((ops[0].Insert? || ops[0].Finish? ==> ops[0].id in c.snapshots) &&
     CanRunOnCatalog(ApplyToCatalog(c, ops[0]), ops[1..]))
  }

  function RunCatalog(c: Catalog, ops: seq<Op>): (after: Catalog)
    requires c.rows.Keys == c.snapshots.Keys && CanRunOnCatalog(c, ops)
    ensures after.rows.Keys == after.snapshots.Keys
    decreases |ops|
  {
    if ops == [] then c else RunCatalog(ApplyToCatalog(c, ops[0]), ops[1..])
  }

  /** Whatever was created, inserted, finished, rebased, deleted and collected, with
      snapshot and path ids handed out again, the store reads as the plain map. */
  lemma {:induction false} RunRefines(t: Tables, ops: seq<Op>)
    requires Coherent(t) && CanRun(t, ops)
    ensures CanRunOnCatalog(Abstract(t), ops)
    ensures Abstract(Run(t, ops)) == RunCatalog(Abstract(t), ops)
    decreases |ops|
  {
    if ops != [] {
      StepRefines(t, ops[0]);
      RunRefines(Apply(t, ops[0]), ops[1..]);
    }
  }

  /** An operation that neither relabels, drops nor deletes a complete snapshot. */
  predicate Spares(op: Op, id: SnapshotId) {
    match op
    case Finish(k, _, _) => k != id
    case Rebase(retained) => id in retained
    case Delete(ids) => id !in ids
    case _ => true
  }

  lemma SparedStep(t: Tables, op: Op, id: SnapshotId)
    requires Coherent(t) && Enabled(t, op) && Spares(op, id)
    requires id in t.snapshots && t.snapshots[id].status == Complete
    ensures id in Apply(t, op).snapshots && Apply(t, op).snapshots[id] == t.snapshots[id]
    ensures Rows(Apply(t, op), id) == Rows(t, id)
  {
    match op
    case Create(root, now) => CreateReads(t, root, now);
    case Insert(k, rows) => InsertRowsReads(t, k, rows);
    case Finish(k, status, now) => FinishReads(t, k, status, now);
    case Rebase(retained) => NormalizeKeepsRetained(t, retained, id);
    case Delete(ids) => DeleteReads(t, ids);
    case CollectPaths => DeleteOrphanPathsReads(t);
  }

  /** A complete snapshot that every rebase retains reads, at the end of any run, the rows
      it read at the start. */
  lemma {:induction false} RetainedRowsNeverChange(t: Tables, ops: seq<Op>, id: SnapshotId)
    requires Coherent(t) && CanRun(t, ops)
    requires id in t.snapshots && t.snapshots[id].status == Complete
    requires forall op :: op in ops ==> Spares(op, id)
    ensures id in Run(t, ops).snapshots && Run(t, ops).snapshots[id] == t.snapshots[id]
    ensures Rows(Run(t, ops), id) == Rows(t, id)
    decreases |ops|
  {
    if ops != [] {
      SparedStep(t, ops[0], id);
      RetainedRowsNeverChange(Apply(t, ops[0]), ops[1..], id);
    }
  }

  /** The run of one successful collection, and whatever follows it. */
  function Collection(t: Tables, root: Root, rows: seq<DirectoryAggregate>, start: int, end: int, later: seq<Op>):
    seq<Op>
  {
    var id := NextId(t.snapshots.Keys);
    [Create(root, start)] + ([Insert(id, rows)] + ([Finish(id, Complete, end)] + later))
  }

  lemma RunFirst(t: Tables, op: Op, rest: seq<Op>)
    requires Coherent(t) && CanRun(t, [op] + rest)
    ensures Enabled(t, op) && CanRun(Apply(t, op), rest)
    ensures Run(t, [op] + rest) == Run(Apply(t, op), rest)
  {
  }

  lemma RunCons(t: Tables, op: Op, rest: seq<Op>)
    requires Coherent(t) && Enabled(t, op) && CanRun(Apply(t, op), rest)
    ensures CanRun(t, [op] + rest) && Run(t, [op] + rest) == Run(Apply(t, op), rest)
  {
  }

  /** The tables after the first two steps of a collection. */
  lemma InsertedReads(t: Tables, root: Root, rows: seq<DirectoryAggregate>, start: int, rest: seq<Op>)
    returns (inserted: Tables)
    requires Coherent(t)
    requires CanRun(t, [Create(root, start)] + ([Insert(NextId(t.snapshots.Keys), rows)] + rest))
    ensures
      var id := NextId(t.snapshots.Keys);
      Coherent(inserted) && CanRun(inserted, rest) && id in inserted.snapshots && Rows(inserted, id) == Members(rows) &&
      inserted.snapshots[id].status == Running &&
      Run(t, [Create(root, start)] + ([Insert(id, rows)] + rest)) == Run(inserted, rest)
  {
    var id := NextId(t.snapshots.Keys);
    RunFirst(t, Create(root, start), [Insert(id, rows)] + rest);
    CreateReads(t, root, start);
    var created := Apply(t, Create(root, start));
    RunFirst(created, Insert(id, rows), rest);
    InsertRowsReads(created, id, rows);
    inserted := Apply(created, Insert(id, rows));
  }

  /** A complete snapshot reads exactly the rows that its collection inserted, however the
      run continues, as long as it is retained. */
  lemma ScannedRowsAreKept(t: Tables, root: Root, rows: seq<DirectoryAggregate>, start: int, end: int, later: seq<Op>)
    requires Coherent(t)
    requires CanRun(t, Collection(t, root, rows, start, end, later))
    requires forall op :: op in later ==> Spares(op, NextId(t.snapshots.Keys))
    ensures
      var id := NextId(t.snapshots.Keys);
      var final := Run(t, Collection(t, root, rows, start, end, later));
      id in final.snapshots && final.snapshots[id].status == Complete && Rows(final, id) == Members(rows)
  {
    var id := NextId(t.snapshots.Keys);
    var finish := Finish(id, Complete, end);
    var inserted := InsertedReads(t, root, rows, start, [finish] + later);
    RunFirst(inserted, finish, later);
    FinishReads(inserted, id, Complete, end);
    RetainedRowsNeverChange(Apply(inserted, finish), later, id);
  }

  /** Between the commit of a rebase and the deletion of what it dropped, a complete
      snapshot that is not retained reads its own rows if and only if the retained complete
      snapshot before it holds the same rows. */
  lemma DroppedReadsCorrectlyIff(t: Tables, retained: set<SnapshotId>, id: SnapshotId)
    requires Coherent(t) && id in t.snapshots && t.snapshots[id].status == Complete && id !in retained
    ensures
      var floor := Floor(Kept(t.snapshots, retained, t.snapshots[id].rootPath), id);
      Rows(Normalize(t, retained), id) == Rows(t, id) <==>
      if floor.Null? then Rows(t, id) == {} else Rows(t, floor.id) == Rows(t, id)
  {
    RebaseReads(t, retained);
  }
}
