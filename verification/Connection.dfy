/** The writer's database connection: statements change the working tables, a commit makes
    them durable, and a rollback returns to what was committed last. */
module Connection {
  import opened Models
  import opened Ids
  import opened Tables
  import opened Promotion
  import opened Normalization
  import opened Operations
  import opened Retention
  import opened Pruning
  import opened StoreRuns

  class Connection {
    var db: Tables
    var committed: Tables

    ghost predicate Valid()
      reads this
    {
      Coherent(db) && Coherent(committed)
    }

    constructor ()
      ensures Valid() && db == committed == EMPTY_TABLES
    {
      db, committed := EMPTY_TABLES, EMPTY_TABLES;
    }

    method Commit()
      modifies this
      ensures db == old(db) && committed == old(db)
    {
      committed := db;
    }

    method Rollback()
      modifies this
      ensures db == old(committed) && committed == old(committed)
    {
      db := committed;
    }

    method CreateSnapshot(root: Root, now: int) returns (id: SnapshotId)
      modifies this
      ensures id == NextId(old(db).snapshots.Keys)
      ensures db == Operations.CreateSnapshot(old(db), root, now) && committed == db
    {
      id := NextId(db.snapshots.Keys);
      db := db.(snapshots := db.snapshots[id := Snapshot(root, Running, now, None)]);
      Commit();
    }

    // ----- inserting rows

    /** Looks a path up in the cache, then in the dictionary, and adds it when it is new. */
    method ResolvePathId(cache: map<Bytes, PathId>, path: Bytes) returns (known: map<Bytes, PathId>, id: PathId)
      requires Injective(db.paths) && CacheAgrees(cache, db.paths)
      modifies this
      ensures (db.paths, id) == ResolvePath(old(db).paths, path)
      ensures db == old(db).(paths := db.paths) && committed == old(committed)
      ensures CacheAgrees(known, db.paths)
    {
      known := cache;
      if path in cache {
        id := cache[path];
        FindPathUnique(db.paths, id);
        return;
      }
      var found := FindPath(db.paths, path);
      if found.Id? {
        id := found.id;
      } else {
        id := NextId(db.paths.Keys);
        db := db.(paths := db.paths[id := path]);
      }
      known := cache[path := id];
    }

    method ResolveOptionalPathId(cache: map<Bytes, PathId>, path: Option<Bytes>)
      returns (known: map<Bytes, PathId>, id: NullableId)
      requires Injective(db.paths) && CacheAgrees(cache, db.paths)
      modifies this
      ensures (db.paths, id) == ResolveOptional(old(db).paths, path)
      ensures db == old(db).(paths := db.paths) && committed == old(committed)
      ensures CacheAgrees(known, db.paths)
    {
      known, id := cache, Null;
      if path.Some? {
        var k;
        known, k := ResolvePathId(cache, path.value);
        id := Id(k);
      }
    }

    /** Inserts the rows of one snapshot as diagnostic rows. A failed insert leaves a partial
        transaction, which the caller rolls back. */
    method InsertDirectoryRows(id: SnapshotId, rows: seq<DirectoryAggregate>) returns (ok: bool)
      requires Injective(db.paths)
      modifies this
      ensures ok <==> InsertRows(old(db), id, rows).Applied?
      ensures ok ==> db == InsertRows(old(db), id, rows).tables
      ensures committed == old(committed)
    {
      var cache: map<Bytes, PathId> := map[];
      ok := true;
      for n := 0 to |rows|
        invariant Injective(db.paths) && CacheAgrees(cache, db.paths) && committed == old(committed)
        invariant InsertRows(old(db), id, rows[..n]) == Applied(db)
      {
        var row := rows[n];
        label Before:
        var pathId, parentId, topChildId;
        cache, pathId := ResolvePathId(cache, row.path);
        cache, parentId := ResolveOptionalPathId(cache, row.parentPath);
        cache, topChildId := ResolveOptionalPathId(cache, row.topChildPath);
        var key := DiagnosticKey(id, pathId);
        assert rows[..n + 1][..n] == rows[..n];
        assert Encode(old@Before(db).paths, row)
            == Encoded(db.paths, StateRow(pathId, State(parentId, topChildId, row.facts)));
        if id !in db.snapshots || key in db.diagnostics {
          RejectedPrefix(old(db), id, rows, n + 1);
          return false;
        }
        db := db.(diagnostics := db.diagnostics[key := State(parentId, topChildId, row.facts)]);
      }
      assert rows[..|rows|] == rows;
    }

    // ----- promotion

    /** Ends the open version of every path that the new snapshot no longer has. */
    method EndVersions(root: Root, id: SnapshotId, pathIds: set<PathId>)
      modifies this
      ensures db == old(db).(intervals := CloseOpen(old(db).intervals, root, pathIds, id))
      ensures committed == old(committed)
    {
      var todo := pathIds;
      CloseNone(db.intervals, root, id);
      assert pathIds - todo == {};
      while todo != {}
        invariant todo <= pathIds && committed == old(committed)
        invariant db == old(db).(intervals := CloseOpen(old(db).intervals, root, pathIds - todo, id))
        decreases |todo|
      {
        NonEmpty(todo);
        var pathId :| pathId in todo;
        CloseTwice(old(db).intervals, root, pathIds - todo, {pathId}, id);
        assert pathIds - (todo - {pathId}) == (pathIds - todo) + {pathId};
        db := db.(intervals := CloseOpen(db.intervals, root, {pathId}, id));
        todo := todo - {pathId};
      }
      assert pathIds - todo == pathIds;
    }

    /** Replaces the open version of every path whose row changed and adds the new paths. */
    method WriteVersions(root: Root, id: SnapshotId, active: map<PathId, State>, current: map<PathId, State>,
                         ghost before: set<Interval>, ghost gone: set<PathId>)
      requires db.intervals == Advanced(before, root, id, active, current, gone, {})
      modifies this
      ensures db == old(db).(intervals := Advanced(before, root, id, active, current, gone, current.Keys))
      ensures committed == old(committed)
    {
      var left := current.Keys;
      ghost var done := {};
      while left != {}
        invariant left <= current.Keys && done == current.Keys - left && committed == old(committed)
        invariant db == old(db).(intervals := Advanced(before, root, id, active, current, gone, done))
        decreases |left|
      {
        NonEmpty(left);
        var pathId :| pathId in left;
        AdvanceOne(before, root, id, active, current, gone, done, pathId);
        if !(pathId in active && active[pathId] == current[pathId]) {
          if pathId in active {
            db := db.(intervals := CloseOpen(db.intervals, root, {pathId}, id));
          }
          db := db.(intervals := db.intervals + {Interval(root, pathId, id, Null, current[pathId])});
        }
        left := left - {pathId};
        done := done + {pathId};
      }
      assert done == current.Keys;
    }

    /** Reads the open versions of the snapshot's root and the snapshot's own rows. */
    method LoadStates(id: SnapshotId) returns (active: map<PathId, State>, current: map<PathId, State>)
      requires Promotable(db, id)
      ensures Loaded(db, id, active, current)
    {
      var root := db.snapshots[id].rootPath;
      current := map k | k in db.diagnostics && k.snapshotId == id :: k.pathId := db.diagnostics[k];
      ActiveIsFunctional(db, root);
      active := map i | i in db.intervals && IsOpen(i, root) && i.from < id :: i.pathId := i.state;
      ActiveIsOpen(db, id, active, current);
    }

    method PromoteCompleteSnapshot(id: SnapshotId)
      requires Promotable(db, id)
      modifies this
      ensures db == Promote(old(db), id) && committed == old(committed)
    {
      var root := db.snapshots[id].rootPath;
      var active, current := LoadStates(id);
      var gone := active.Keys - current.Keys;
      AdvancedIsPromoted(db, id, active, current);
      AdvancedStart(db.intervals, root, id, active, current, gone);
      EndVersions(root, id, gone);
      WriteVersions(root, id, active, current, old(db).intervals, gone);
      db := db.(diagnostics := WithoutDiagnostics(db.diagnostics, {id}));
    }

    method FinalizeSnapshot(id: SnapshotId, status: Status, now: int, commit: bool)
      requires Valid() && Enabled(db, Finish(id, status, now))
      modifies this
      ensures Valid()
      ensures db == Finalize(old(db), id, status, now)
      ensures committed == if commit then db else old(committed)
    {
      FinishKeepsCoherent(db, id, status, now);
      if status == Complete {
        PromoteCompleteSnapshot(id);
      }
      db := db.(snapshots := db.snapshots[id := db.snapshots[id].(status := status, finishedAt := Some(now))]);
      if commit {
        Commit();
      }
    }

    // ----- retention

    method NormalizeIntervalBoundaries(retained: set<SnapshotId>)
      modifies this
      ensures db == Normalize(old(db), retained) && committed == old(committed)
    {
      if retained == {} {
        NormalizeForNothing(db);
        db := db.(intervals := {});
        return;
      }
      db := db.(intervals := set i | i in db.intervals && Survives(Kept(db.snapshots, retained, i.root), i));
      SurvivorsMove(old(db), db, retained);
      db := db.(intervals := set i | i in db.intervals
        :: if Survives(Kept(db.snapshots, retained, i.root), i) then Move(Kept(db.snapshots, retained, i.root), i)
           else i);
    }

    /** A whole retention run. With commit, the normalization, every single deletion and the path
        collection are committed one by one; without, the run stays one open transaction. */
    method PruneSnapshots(policy: RetentionPolicy, calendar: Calendar, now: int, commit: bool)
      returns (deleted: set<SnapshotId>, ghost commits: seq<Tables>)
      requires Valid() && db == committed
      modifies this
      ensures Valid()
      ensures
        var retained := Retained(old(db).snapshots, CutoffsAt(policy, now), calendar);
        deleted == old(db).snapshots.Keys - retained && db == Prune(old(db), retained) &&
        commits == if commit then PruneCommits(old(db), retained, deleted) else []
      ensures committed == if commit then db else old(committed)
    {
      ghost var t := db;
      var retained := SelectRetainedSnapshotIds(db.snapshots, policy, calendar, now);
      deleted := db.snapshots.Keys - retained;
      PartlyPrunedKeepsReads(t, retained, deleted, true);
      NormalizeIntervalBoundaries(retained);
      commits := [];
      if commit {
        Commit();
        commits := DeleteOneByOne(deleted, t, retained);
      } else {
        db := DeleteSnapshots(db, deleted);
      }
      db := DeleteOrphanPaths(db);
      if commit {
        Commit();
        commits := commits + [db];
      }
    }

    /** Deletes the snapshots by ascending id, each in its own transaction. */
    method DeleteOneByOne(ids: set<SnapshotId>, ghost t: Tables, ghost retained: set<SnapshotId>)
      returns (ghost commits: seq<Tables>)
      requires Coherent(t) && ids !! retained && db == committed == Normalize(t, retained)
      modifies this
      ensures db == committed == PartlyPruned(t, retained, ids, false)
      ensures commits == Trace(AfterDeletions(t, retained, ids), |ids|)
    {
      var todo := ids;
      ghost var n := 0;
      ghost var states := AfterDeletions(t, retained, ids);
      FirstCommit(t, retained, ids);
      commits := [db];
      while todo != {}
        invariant n <= |ids| && todo == ids - Lowest(ids, n)
        invariant db == committed == states(n)
        invariant commits == Trace(states, n)
        decreases |todo|
      {
        NextCommit(t, retained, ids, n);
        var id := LeastOf(todo);
        db := DeleteSnapshots(db, {id});
        Commit();
        commits := commits + [db];
        todo := todo - {id};
        n := n + 1;
      }
      LastCommit(t, retained, ids, n);
    }
  }

  // ----- what a retention run commits

  function Trace<T>(states: nat -> T, n: nat): (trace: seq<T>)
    ensures |trace| == n + 1
  {
    if n == 0 then [states(0)] else Trace(states, n - 1) + [states(n)]
  }

  lemma {:induction false} TraceAt<T>(states: nat -> T, n: nat, k: nat)
    requires k <= n
    ensures Trace(states, n)[k] == states(k)
    decreases n
  {
    if k < n {
      TraceAt(states, n - 1, k);
    }
  }

  /** The tables after the n lowest ids are deleted. */
  function AfterDeletions(t: Tables, retained: set<SnapshotId>, ids: set<SnapshotId>): nat -> Tables {
    (n: nat) => PartlyPruned(t, retained, Lowest(ids, n), false)
  }

  function PruneCommits(t: Tables, retained: set<SnapshotId>, ids: set<SnapshotId>): seq<Tables> {
    Trace(AfterDeletions(t, retained, ids), |ids|) + [PartlyPruned(t, retained, ids, true)]
  }

  lemma FirstCommit(t: Tables, retained: set<SnapshotId>, ids: set<SnapshotId>)
    ensures AfterDeletions(t, retained, ids)(0) == Normalize(t, retained)
    ensures ids - Lowest(ids, 0) == ids
  {
    assert DeleteSnapshots(Normalize(t, retained), {}) == Normalize(t, retained);
  }

  lemma NextCommit(t: Tables, retained: set<SnapshotId>, ids: set<SnapshotId>, n: nat)
    requires n <= |ids| && ids - Lowest(ids, n) != {}
    ensures
      var states, left := AfterDeletions(t, retained, ids), ids - Lowest(ids, n);
      n < |ids| && left - {LeastOf(left)} == ids - Lowest(ids, n + 1) &&
      DeleteSnapshots(states(n), {LeastOf(left)}) == states(n + 1)
  {
    NextLowest(ids, n);
    DeleteTwice(Normalize(t, retained), Lowest(ids, n), {LeastOf(ids - Lowest(ids, n))});
  }

  lemma LastCommit(t: Tables, retained: set<SnapshotId>, ids: set<SnapshotId>, n: nat)
    requires n <= |ids| && ids - Lowest(ids, n) == {}
    ensures n == |ids| && AfterDeletions(t, retained, ids)(n) == PartlyPruned(t, retained, ids, false)
  {
    assert Lowest(ids, n) == ids;
  }

  /** Every state that a retention run commits is coherent and reads all that it retains as before. */
  lemma PruneCommitsKeepReads(t: Tables, retained: set<SnapshotId>, ids: set<SnapshotId>, n: nat, k: SnapshotId)
    requires Coherent(t) && ids !! retained && n < |PruneCommits(t, retained, ids)|
    requires k in t.snapshots && k in retained
    ensures
      var state := PruneCommits(t, retained, ids)[n];
      Coherent(state) && k in state.snapshots && state.snapshots[k] == t.snapshots[k] && Rows(state, k) == Rows(t, k)
  {
    if n <= |ids| {
      TraceAt(AfterDeletions(t, retained, ids), |ids|, n);
      PartlyPrunedKeepsReads(t, retained, Lowest(ids, n), false);
    } else {
      PartlyPrunedKeepsReads(t, retained, ids, true);
    }
  }

  // ----- helpers for the path cache and failed inserts

  ghost predicate CacheAgrees(cache: map<Bytes, PathId>, paths: map<PathId, Bytes>) {
    forall p :: p in cache ==> cache[p] in paths && paths[cache[p]] == p
  }

  lemma {:induction false} RejectedPrefix(t: Tables, id: SnapshotId, rows: seq<DirectoryAggregate>, n: nat)
    requires Injective(t.paths) && n <= |rows| && InsertRows(t, id, rows[..n]).Rejected?
    ensures InsertRows(t, id, rows).Rejected?
    decreases |rows|
  {
    if n == |rows| {
      assert rows[..n] == rows;
    } else {
      assert rows[..|rows| - 1][..n] == rows[..n];
      RejectedPrefix(t, id, rows[..|rows| - 1], n);
    }
  }

  // ----- helpers for the promotion loops

  lemma ActiveIsFunctional(t: Tables, root: Root)
    requires Coherent(t)
    ensures forall i, j :: (i in t.intervals && j in t.intervals && IsOpen(i, root) && IsOpen(j, root) &&
                            i.pathId == j.pathId) ==> i == j
  {
  }

  /** The two dictionaries the promotion reads before it writes. */
  ghost predicate Loaded(t: Tables, id: SnapshotId, active: map<PathId, State>, current: map<PathId, State>)
    requires id in t.snapshots
  {
    var root := t.snapshots[id].rootPath;
    (forall p :: p in current <==> DiagnosticKey(id, p) in t.diagnostics) &&
    (forall p :: p in current ==> current[p] == t.diagnostics[DiagnosticKey(id, p)]) &&
    (forall i :: i in t.intervals && IsOpen(i, root) ==> i.pathId in active && active[i.pathId] == i.state) &&
    (forall p :: p in active ==> exists i :: i in t.intervals && IsOpen(i, root) && i.pathId == p)
  }

  lemma ActiveIsOpen(t: Tables, id: SnapshotId, active: map<PathId, State>, current: map<PathId, State>)
    requires Promotable(t, id)
    requires forall i :: i in t.intervals && IsOpen(i, t.snapshots[id].rootPath) && i.from < id ==>
               i.pathId in active && active[i.pathId] == i.state
    requires forall p :: p in active ==>
               exists i :: i in t.intervals && IsOpen(i, t.snapshots[id].rootPath) && i.pathId == p
    requires forall p :: p in current <==> DiagnosticKey(id, p) in t.diagnostics
    requires forall p :: p in current ==> current[p] == t.diagnostics[DiagnosticKey(id, p)]
    ensures Loaded(t, id, active, current)
  {
  }

  lemma CloseNone(intervals: set<Interval>, root: Root, id: SnapshotId)
    ensures CloseOpen(intervals, root, {}, id) == intervals
  {
  }

  lemma AdvancedStart(intervals: set<Interval>, root: Root, id: SnapshotId, active: map<PathId, State>,
                      current: map<PathId, State>, gone: set<PathId>)
    ensures Advanced(intervals, root, id, active, current, gone, {}) == CloseOpen(intervals, root, gone, id)
  {
  }

  lemma NormalizeForNothing(t: Tables)
    ensures NormalizedIntervals(t, {}) == {}
  {
  }

  /** Deleting the versions that cover nothing retained and moving the rest is one step. */
  lemma SurvivorsMove(t: Tables, m: Tables, retained: set<SnapshotId>)
    requires m == t.(intervals := set i | i in t.intervals && Survives(Kept(t.snapshots, retained, i.root), i))
    ensures NormalizedIntervals(t, retained)
            == set i | i in m.intervals :: if Survives(Kept(m.snapshots, retained, i.root), i)
                                           then Move(Kept(m.snapshots, retained, i.root), i) else i
  {
  }

  lemma CloseTwice(intervals: set<Interval>, root: Root, first: set<PathId>, second: set<PathId>, id: SnapshotId)
    ensures CloseOpen(CloseOpen(intervals, root, first, id), root, second, id)
            == CloseOpen(intervals, root, first + second, id)
  {
  }

  function Changed(active: map<PathId, State>, current: map<PathId, State>, done: set<PathId>): set<PathId> {
    set p | p in done && p in current && p in active && active[p] != current[p]
  }

  function Started(root: Root, id: SnapshotId, active: map<PathId, State>, current: map<PathId, State>,
                   done: set<PathId>): set<Interval>
  {
    set p | p in done && p in current && !(p in active && active[p] == current[p])
      :: Interval(root, p, id, Null, current[p])
  }

  /** The interval table when the second loop has handled the paths in done. */
  function Advanced(intervals: set<Interval>, root: Root, id: SnapshotId, active: map<PathId, State>,
                    current: map<PathId, State>, gone: set<PathId>, done: set<PathId>): set<Interval>
  {
    CloseOpen(intervals, root, gone + Changed(active, current, done), id) + Started(root, id, active, current, done)
  }

  lemma CloseUnion(a: set<Interval>, b: set<Interval>, root: Root, pathIds: set<PathId>, id: SnapshotId)
    ensures CloseOpen(a + b, root, pathIds, id)
            == CloseOpen(a, root, pathIds, id) + CloseOpen(b, root, pathIds, id)
  {
  }

  lemma CloseElsewhere(intervals: set<Interval>, root: Root, pathIds: set<PathId>, id: SnapshotId)
    requires forall i :: i in intervals ==> i.pathId !in pathIds
    ensures CloseOpen(intervals, root, pathIds, id) == intervals
  {
  }

  lemma AdvanceOne(intervals: set<Interval>, root: Root, id: SnapshotId, active: map<PathId, State>,
                   current: map<PathId, State>, gone: set<PathId>, done: set<PathId>, pathId: PathId)
    requires pathId in current && pathId !in done
    ensures
      var before := Advanced(intervals, root, id, active, current, gone, done);
      Advanced(intervals, root, id, active, current, gone, done + {pathId})
      == if pathId in active && active[pathId] == current[pathId] then before
         else (if pathId in active then CloseOpen(before, root, {pathId}, id) else before)
              + {Interval(root, pathId, id, Null, current[pathId])}
  {
    var row := Interval(root, pathId, id, Null, current[pathId]);
    var started := Started(root, id, active, current, done);
    if pathId in active && active[pathId] == current[pathId] {
      assert Changed(active, current, done + {pathId}) == Changed(active, current, done);
      assert Started(root, id, active, current, done + {pathId}) == started;
    } else {
      assert Started(root, id, active, current, done + {pathId}) == started + {row} by {
        forall j | j in started + {row}
          ensures j in Started(root, id, active, current, done + {pathId})
        {
          if j == row {
            assert pathId in done + {pathId};
          } else {
            assert j.pathId in done && j.pathId in done + {pathId};
          }
        }
      }
      if pathId in active {
        assert Changed(active, current, done + {pathId}) == Changed(active, current, done) + {pathId};
        assert gone + Changed(active, current, done + {pathId}) == gone + Changed(active, current, done) + {pathId};
        CloseTwice(intervals, root, gone + Changed(active, current, done), {pathId}, id);
        CloseUnion(CloseOpen(intervals, root, gone + Changed(active, current, done), id), started, root, {pathId}, id);
        CloseElsewhere(started, root, {pathId}, id);
      } else {
        assert Changed(active, current, done + {pathId}) == Changed(active, current, done);
      }
    }
  }

  lemma AdvancedIsPromoted(t: Tables, id: SnapshotId, active: map<PathId, State>, current: map<PathId, State>)
    requires Promotable(t, id) && Loaded(t, id, active, current)
    ensures
      var root := t.snapshots[id].rootPath;
      Advanced(t.intervals, root, id, active, current, active.Keys - current.Keys, current.Keys)
      == CloseOpen(t.intervals, root, Stale(t, root, id), id) + Fresh(t, root, id)
  {
    var root := t.snapshots[id].rootPath;
    var ended := active.Keys - current.Keys + Changed(active, current, current.Keys);
    forall p
      ensures p in ended <==> p in Stale(t, root, id)
    {
      if p in ended {
        var i :| i in t.intervals && IsOpen(i, root) && i.pathId == p;
        assert !HasState(t, id, i.pathId, i.state);
      }
      if p in Stale(t, root, id) {
        var i :| i in t.intervals && IsOpen(i, root) && !HasState(t, id, i.pathId, i.state) && i.pathId == p;
        assert p in active && active[p] == i.state;
      }
    }
    assert ended == Stale(t, root, id);
    StartedIsFresh(t, id, active, current);
  }

  lemma StartedIsFresh(t: Tables, id: SnapshotId, active: map<PathId, State>, current: map<PathId, State>)
    requires Promotable(t, id) && Loaded(t, id, active, current)
    ensures Started(t.snapshots[id].rootPath, id, active, current, current.Keys)
            == Fresh(t, t.snapshots[id].rootPath, id)
  {
  }
}
