/** Collecting one root: the order of commits, and what an interrupt or an exception at any
    point between two steps leaves behind. */
module Collect {
  import opened Models
  import opened Ids
  import opened Tables
  import opened Promotion
  import opened Operations
  import opened StoreRuns
  import C = Connection

  /** What one collection works with: the tables it starts from and the scan it stores. */
  datatype Job = Job(before: Tables, root: Root, rows: seq<DirectoryAggregate>, status: Status, start: int, end: int)
  {
    ghost predicate Valid() {
      Coherent(before) && status != Running && InsertRows(Created(), Id(), rows).Applied?
    }

    /** The id that the new snapshot takes. */
    function Id(): SnapshotId {
      NextId(before.snapshots.Keys)
    }

    function Created(): Tables {
      CreateSnapshot(before, root, start)
    }

    function Inserted(): Tables
      requires Valid()
    {
      InsertRows(Created(), Id(), rows).tables
    }

    function Stored(): Tables
      requires Valid() && Id() in Inserted().snapshots
    {
      Finalize(Inserted(), Id(), status, end)
    }
  }

  datatype Phase = Starting | CreatedRow | Tracked | Opened | RowsInserted | Finished | Committed | Done | Stopped

  /** The collector between two steps: its phase, the connection's two table images and the
      ids that an interrupt marks as failed. */
  datatype Collector = Collector(phase: Phase, db: Tables, committed: Tables, active: set<SnapshotId>)

  /** The interrupt handler and the exception handler: roll back, then mark as failed. */
  ghost predicate MarkedFailed(from: Tables, ids: set<SnapshotId>, job: Job, to: Tables) {
    if ids == {job.Id()} && job.Id() in from.snapshots
    then exists now :: to == Finalize(from, job.Id(), Failed, now)
    else ids == {} && to == from
  }

  ghost predicate Interrupted(job: Job, s: Collector, next: Collector) {
    s.phase != Stopped && next.phase == Stopped && next.db == next.committed && next.active == {} &&
    MarkedFailed(s.committed, s.active, job, next.committed)
  }

  /** An exception inside the guarded block takes the same way out as an interrupt. */
  ghost predicate Step(job: Job, s: Collector, next: Collector)
    requires job.Valid()
  {
    match s.phase
    case Starting =>
      next == Collector(CreatedRow, job.Created(), job.Created(), s.active)
    case CreatedRow =>
      next == s.(phase := Tracked, active := s.active + {job.Id()})
    case Tracked =>
      next == s.(phase := Opened)
    case Opened =>
      next == s.(phase := RowsInserted, db := job.Inserted())
    case RowsInserted =>
      job.Id() in s.db.snapshots &&
      next == s.(phase := Finished, db := Finalize(s.db, job.Id(), job.status, job.end))
    case Finished =>
      next == s.(phase := Committed, committed := s.db)
    case Committed =>
      next == s.(phase := Done, active := s.active - {job.Id()})
    case Done => false
    case Stopped => false
  }

  ghost predicate Next(job: Job, s: Collector, next: Collector)
    requires job.Valid()
  {
    Step(job, s, next) || Interrupted(job, s, next)
  }

  ghost predicate IsRun(job: Job, run: seq<Collector>)
    requires job.Valid()
  {
    run != [] && run[0] == Collector(Starting, job.before, job.before, {}) &&
    forall i :: 0 <= i < |run| - 1 ==> Next(job, run[i], run[i + 1])
  }

  // ----- the tables that can be committed

  lemma JobStates(job: Job)
    requires job.Valid()
    ensures Coherent(job.Created()) && Coherent(job.Inserted())
    ensures job.Id() in job.Created().snapshots && job.Id() in job.Inserted().snapshots
    ensures Coherent(job.Stored()) && job.Id() in job.Stored().snapshots
    ensures Holds(job, job.Created()) && Holds(job, job.Stored())
    ensures Rows(job.Created(), job.Id()) == {} && Rows(job.Stored(), job.Id()) == Members(job.rows)
    ensures job.Stored().snapshots[job.Id()].status == job.status
  {
    var id := job.Id();
    CreateReads(job.before, job.root, job.start);
    InsertRowsReads(job.Created(), id, job.rows);
    var t := job.Inserted();
    assert Newest(t, id);
    assert Enabled(t, Finish(id, job.status, job.end));
    FinishKeepsCoherent(t, id, job.status, job.end);
    FinishReads(t, id, job.status, job.end);
  }

  /** Every snapshot from before is still there and reads the same rows. */
  predicate KeepsOthers(job: Job, t: Tables) {
    forall k :: k in job.before.snapshots ==>
      k in t.snapshots && t.snapshots[k] == job.before.snapshots[k] && Rows(t, k) == Rows(job.before, k)
  }

  /** The new snapshot is absent, or reads nothing, or reads the full scan. */
  predicate AllOrNothing(job: Job, t: Tables) {
    job.Id() in t.snapshots ==> Rows(t, job.Id()) == {} || Rows(t, job.Id()) == Members(job.rows)
  }

  predicate Holds(job: Job, t: Tables) {
    Coherent(t) && KeepsOthers(job, t) && AllOrNothing(job, t) &&
    t.snapshots.Keys <= job.before.snapshots.Keys + {job.Id()}
  }

  lemma MarkingHolds(job: Job, t: Tables, now: int)
    requires job.Valid() && Holds(job, t) && job.Id() in t.snapshots
    ensures Holds(job, Finalize(t, job.Id(), Failed, now))
    ensures Finalize(t, job.Id(), Failed, now).snapshots[job.Id()].status == Failed
  {
    FinishKeepsCoherent(t, job.Id(), Failed, now);
    FinishReads(t, job.Id(), Failed, now);
  }

  // ----- the protocol's invariant

  predicate Tracks(job: Job, s: Collector) {
    match s.phase
    case Starting => s.active == {}
    case CreatedRow => s.active == {}
    case Done => s.active == {}
    case Stopped => s.active == {}
    case _ => s.active == {job.Id()}
  }

  ghost predicate Inv(job: Job, s: Collector)
    requires job.Valid()
  {
    Tracks(job, s) &&
    match s.phase
    case Starting => s.db == s.committed == job.before
    case CreatedRow => s.db == s.committed == job.Created()
    case Tracked => s.db == s.committed == job.Created()
    case Opened => s.db == s.committed == job.Created()
    case RowsInserted => s.committed == job.Created() && s.db == job.Inserted()
    case Finished =>
      job.Id() in job.Inserted().snapshots && s.committed == job.Created() && s.db == job.Stored()
    case Committed => job.Id() in job.Inserted().snapshots && s.db == s.committed == job.Stored()
    case Done => job.Id() in job.Inserted().snapshots && s.db == s.committed == job.Stored()
    case Stopped => s.db == s.committed && Holds(job, s.committed)
  }

  lemma StepKeepsInv(job: Job, s: Collector, next: Collector)
    requires job.Valid() && Inv(job, s) && Next(job, s, next)
    ensures Inv(job, next)
  {
    JobStates(job);
    if Interrupted(job, s, next) && s.active != {} {
      var now :| next.committed == Finalize(s.committed, job.Id(), Failed, now);
      MarkingHolds(job, s.committed, now);
    }
  }

  /** Collection is all or nothing: in every state that any run with any interrupt reaches,
      the committed tables are coherent, every other snapshot reads as before, and the new
      one reads nothing or the full scan. */
  lemma {:induction false} CollectionIsAllOrNothing(job: Job, run: seq<Collector>, n: nat)
    requires job.Valid() && IsRun(job, run) && n < |run|
    ensures Inv(job, run[n]) && Holds(job, run[n].committed)
    decreases n
  {
    JobStates(job);
    if n > 0 {
      CollectionIsAllOrNothing(job, run, n - 1);
      assert Next(job, run[n - 1], run[n]);
      StepKeepsInv(job, run[n - 1], run[n]);
    }
  }

  /** An interrupt keeps a complete scan complete if and only if the snapshot has already left
      the active set: one that arrives between the commit and that moment relabels it failed,
      and its rows can no longer be read. */
  lemma InterruptKeepsCompleteIff(job: Job, s: Collector, next: Collector)
    requires job.Valid() && job.status == Complete && Inv(job, s) && Interrupted(job, s, next)
    ensures (job.Id() in next.committed.snapshots && next.committed.snapshots[job.Id()].status == Complete)
            <==> s.phase == Done
    ensures s.phase == Committed ==> Rows(s.committed, job.Id()) == Members(job.rows) &&
                                     job.Id() in next.committed.snapshots && Rows(next.committed, job.Id()) == {}
  {
    JobStates(job);
    if s.active != {} {
      var now :| next.committed == Finalize(s.committed, job.Id(), Failed, now);
      FinishReads(s.committed, job.Id(), Failed, now);
    }
  }

  /** The steps of a collection up to its last commit. */
  ghost function UpToCommit(job: Job): seq<Collector>
    requires job.Valid() && job.Id() in job.Inserted().snapshots
  {
    var ids := {job.Id()};
    [Collector(Starting, job.before, job.before, {}),
     Collector(CreatedRow, job.Created(), job.Created(), {}),
     Collector(Tracked, job.Created(), job.Created(), ids),
     Collector(Opened, job.Created(), job.Created(), ids),
     Collector(RowsInserted, job.Inserted(), job.Created(), ids),
     Collector(Finished, job.Stored(), job.Created(), ids),
     Collector(Committed, job.Stored(), job.Stored(), ids)]
  }

  lemma UpToCommitIsRun(job: Job)
    requires job.Valid() && job.Id() in job.Inserted().snapshots
    ensures IsRun(job, UpToCommit(job))
  {
    var run := UpToCommit(job);
    forall i | 0 <= i < |run| - 1
      ensures Step(job, run[i], run[i + 1])
    {
    }
  }

  /** Every complete scan has such a run: committed as complete, then marked failed by a signal that
      came before its id left the active set. */
  lemma InterruptCanFailComplete(job: Job, now: int) returns (run: seq<Collector>)
    requires job.Valid() && job.status == Complete
    ensures IsRun(job, run) && |run| >= 2
    ensures
      var committed, stopped := run[|run| - 2], run[|run| - 1];
      committed.phase == Committed && stopped.phase == Stopped &&
      IsStoredAs(job, committed.committed, Complete, Members(job.rows)) &&
      IsStoredAs(job, stopped.committed, Failed, {})
  {
    JobStates(job);
    UpToCommitIsRun(job);
    var before := UpToCommit(job);
    var failed := Finalize(job.Stored(), job.Id(), Failed, now);
    var last := Collector(Stopped, failed, failed, {});
    FinishReads(job.Stored(), job.Id(), Failed, now);
    assert Interrupted(job, before[|before| - 1], last);
    run := before + [last];
    forall i | 0 <= i < |run| - 1
      ensures Next(job, run[i], run[i + 1])
    {
      if i < |before| - 1 {
        assert Next(job, before[i], before[i + 1]);
      }
    }
  }

  predicate IsStoredAs(job: Job, t: Tables, status: Status, rows: set<DirectoryAggregate>) {
    job.Id() in t.snapshots && t.snapshots[job.Id()].status == status && Rows(t, job.Id()) == rows
  }

  // ----- the undisturbed collection

  /** Every other snapshot reads as before; the new one reads the whole scan under the scan's
      status, or nothing under failed when two rows claim one path. */
  predicate CollectedAs(job: Job, t: Tables) {
    Coherent(t) && KeepsOthers(job, t) && job.Id() in t.snapshots &&
    (if DistinctPaths(job.rows)
     then t.snapshots[job.Id()].status == job.status && Rows(t, job.Id()) == Members(job.rows)
     else t.snapshots[job.Id()].status == Failed && Rows(t, job.Id()) == {})
  }

  lemma CreatedIsReady(job: Job)
    requires Coherent(job.before) && job.status != Running
    ensures Coherent(job.Created()) && job.Id() in job.Created().snapshots
    ensures job.Created().snapshots[job.Id()].status == Running && Rows(job.Created(), job.Id()) == {}
    ensures DistinctPaths(job.rows) <==> job.Valid()
  {
    CreateReads(job.before, job.root, job.start);
    InsertRowsAccepted(job.Created(), job.Id(), job.rows);
  }

  lemma InsertedIsReady(job: Job)
    requires job.Valid()
    ensures Coherent(job.Inserted()) && Enabled(job.Inserted(), Finish(job.Id(), job.status, job.end))
    ensures CollectedAs(job, job.Stored())
  {
    CreatedIsReady(job);
    JobStates(job);
    InsertRowsReads(job.Created(), job.Id(), job.rows);
  }

  lemma RejectedIsCollected(job: Job)
    requires Coherent(job.before) && job.status != Running && !job.Valid()
    ensures job.Id() in job.Created().snapshots
    ensures CollectedAs(job, Finalize(job.Created(), job.Id(), Failed, job.end))
  {
    CreatedIsReady(job);
    CreateReads(job.before, job.root, job.start);
    FinishKeepsCoherent(job.Created(), job.Id(), Failed, job.end);
    FinishReads(job.Created(), job.Id(), Failed, job.end);
  }

  /** Stores one scan: the new snapshot is committed at once, its rows and its final status
      together; a rejected insert is rolled back and the snapshot marked failed. */
  method CollectSingleRoot(connection: C.Connection, root: Root, rows: seq<DirectoryAggregate>, status: Status,
                           start: int, end: int) returns (id: SnapshotId)
    requires connection.Valid() && connection.db == connection.committed && status != Running
    modifies connection
    ensures connection.db == connection.committed
    ensures id == NextId(old(connection.db).snapshots.Keys)
    ensures CollectedAs(Job(old(connection.db), root, rows, status, start, end), connection.db)
  {
    ghost var job := Job(connection.db, root, rows, status, start, end);
    CreatedIsReady(job);
    id := connection.CreateSnapshot(root, start);
    var ok := connection.InsertDirectoryRows(id, rows);
    if ok {
      InsertedIsReady(job);
      connection.FinalizeSnapshot(id, status, end, false);
      connection.Commit();
    } else {
      RejectedIsCollected(job);
      connection.Rollback();
      connection.FinalizeSnapshot(id, Failed, end, true);
    }
  }
}
