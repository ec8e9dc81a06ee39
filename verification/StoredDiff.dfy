/** Differences of stored snapshots: the store's readings are tables with one row per path, and
    what was proved of scans holds for what is read back. */
module StoredDiff {
  import opened Models
  import opened Tables
  import opened Operations
  import opened Dominance
  import opened Diff
  import opened FoldingDiff
  import opened FastDelta
  import opened Walk
  import opened ScanShape
  import opened Collapse

  ghost predicate OnePerPath(rows: set<DirectoryAggregate>) {
    forall r, s :: r in rows && s in rows && r.path == s.path ==> r == s
  }

  ghost function TableOf(rows: set<DirectoryAggregate>): (t: Table)
    requires OnePerPath(rows)
    ensures forall r :: r in rows ==> r.path in t && t[r.path] == r
    ensures forall p {:trigger p in t} :: p in t ==> t[p] in rows && t[p].path == p
  {
    map r | r in rows :: r.path := r
  }

  lemma StoredRowsAreTable(t: Tables, id: SnapshotId)
    requires Coherent(t) && id in t.snapshots
    ensures OnePerPath(Rows(t, id))
  {
    forall r, s | r in Rows(t, id) && s in Rows(t, id) && r.path == s.path
      ensures r == s
    {
      OneRowPerPath(t, id, r, s);
    }
  }

  lemma StoredScanTabulates(t: Tables, id: SnapshotId, policy: Policy, n: Node)
    requires Coherent(t) && id in t.snapshots && Rows(t, id) == Members(NodeRows(policy, n))
    ensures OnePerPath(Rows(t, id)) && Tabulates(TableOf(Rows(t, id)), NodeRows(policy, n))
  {
    StoredRowsAreTable(t, id);
    var table := TableOf(Rows(t, id));
    forall r | r in NodeRows(policy, n)
      ensures r.path in table && table[r.path] == r
    {
      assert r in Rows(t, id);
    }
  }

  /** Two stored scans of one tree, under any policies, differ only by what collapse hides. */
  lemma StoredFoldingIsNotChange(t: Tables, a: SnapshotId, b: SnapshotId, p: Policy, q: Policy, n: Node, path: Bytes)
    requires Coherent(t) && a in t.snapshots && b in t.snapshots && WellShaped(n)
    requires Rows(t, a) == Members(NodeRows(p, n)) && Rows(t, b) == Members(NodeRows(q, n))
    ensures OnePerPath(Rows(t, a)) && OnePerPath(Rows(t, b))
    ensures
      var diff := DiffOf(TableOf(Rows(t, a)), TableOf(Rows(t, b)), true);
      path in diff ==> diff[path].classification in {Created, HiddenByCollapse, Unchanged}
  {
    StoredScanTabulates(t, a, p, n);
    StoredScanTabulates(t, b, q, n);
    if path in DiffOf(TableOf(Rows(t, a)), TableOf(Rows(t, b)), true) {
      FoldingIsNotChange(p, q, n, TableOf(Rows(t, a)), TableOf(Rows(t, b)), path);
    }
  }

  /** The rows that one side of the fast query reads from the tables. */
  ghost function FastRead(t: Tables, id: SnapshotId, maxDepth: int): set<DirectoryAggregate>
    requires id in t.snapshots
  {
    DecodeAll(t.paths, FastStates(t, id, t.snapshots[id].rootPath, t.snapshots[id].status == Complete, maxDepth))
  }

  /** What one side of the fast query reads is the snapshot's table within the depths. */
  lemma FastTable(t: Tables, id: SnapshotId, maxDepth: int)
    requires Coherent(t) && id in t.snapshots
    ensures OnePerPath(Rows(t, id)) && OnePerPath(FastRead(t, id, maxDepth))
    ensures TableOf(FastRead(t, id, maxDepth)) == Within(TableOf(Rows(t, id)), maxDepth)
  {
    StoredRowsAreTable(t, id);
    FastReadsSnapshotState(t, id, maxDepth);
    DecodeWithin(t.paths, SnapshotState(t, id), maxDepth);
    var rows := set r | r in Rows(t, id) && InWindow(r.facts.depth, maxDepth);
    var whole := TableOf(Rows(t, id));
    assert OnePerPath(rows);
    forall p
      ensures p in TableOf(rows) <==> p in Within(whole, maxDepth)
    {
      if p in TableOf(rows) {
        assert whole[p] == TableOf(rows)[p];
      }
    }
  }

  /** The fast query, on what it reads itself of two stored scans of one root, is their full
      difference, filtered by depth and direction. */
  lemma StoredFastQuery(t: Tables, a: SnapshotId, b: SnapshotId, p: Policy, q: Policy, before: Node, after: Node,
                        maxDepth: int, direction: Direction)
    requires Coherent(t) && a in t.snapshots && b in t.snapshots
    requires WellShaped(before) && WellShaped(after) && before.path == after.path && before.depth == after.depth
    requires Rows(t, a) == Members(NodeRows(p, before)) && Rows(t, b) == Members(NodeRows(q, after))
    ensures OnePerPath(Rows(t, a)) && OnePerPath(Rows(t, b))
    ensures OnePerPath(FastRead(t, a, maxDepth)) && OnePerPath(FastRead(t, b, maxDepth))
    ensures
      var full := DiffOf(TableOf(Rows(t, a)), TableOf(Rows(t, b)), true);
      FastJoin(TableOf(FastRead(t, a, maxDepth)), TableOf(FastRead(t, b, maxDepth)), direction)
      == map path | path in full && InWindow(full[path].depth, maxDepth) &&
                    Moves(direction, full[path].previous, full[path].current) :: Shown(full[path])
  {
    StoredScanTabulates(t, a, p, before);
    StoredScanTabulates(t, b, q, after);
    FastTable(t, a, maxDepth);
    FastTable(t, b, maxDepth);
    ScansAgreeOnDepths(p, q, before, after, TableOf(Rows(t, a)), TableOf(Rows(t, b)));
    FastQueryFiltersDiff(TableOf(Rows(t, a)), TableOf(Rows(t, b)), maxDepth, direction);
  }
}
