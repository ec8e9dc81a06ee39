/** A scan meets what the store demands of it: its rows are accepted, and read back. */
module ScanToStore {
  import opened Models
  import opened Ids
  import opened Tables
  import opened Operations
  import opened StoreRuns
  import opened Walk
  import opened ScanShape
  import opened Collapse

  lemma LastPathIsNew(policy: Policy, root: Node, nodes: seq<Node>)
    requires nodes != [] && PostOrder(nodes)
    ensures !PathAmong(RowsOf(policy, Unfolded(policy, root, nodes[..|nodes| - 1])), nodes[|nodes| - 1].path)
  {
    var init, last := nodes[..|nodes| - 1], nodes[|nodes| - 1];
    var shown := Unfolded(policy, root, init);
    var rows := RowsOf(policy, shown);
    forall i | 0 <= i < |rows|
      ensures rows[i].path != last.path
    {
      RowsOfMember(policy, shown, rows[i]);
      var m :| m in shown && NodeRow(policy, m) == rows[i];
      UnfoldedMember(policy, root, init, m);
      var k :| 0 <= k < |init| && init[k] == m;
      assert !AtOrBelow(nodes[|nodes| - 1].path, nodes[k].path);
    }
  }

  /** No path occurs twice in the rows of a scan, under any policy. */
  lemma {:induction false} RowsAreDistinct(policy: Policy, root: Node, nodes: seq<Node>)
    requires PostOrder(nodes)
    ensures DistinctPaths(RowsOf(policy, Unfolded(policy, root, nodes)))
    decreases |nodes|
  {
    if nodes != [] {
      var init, last := nodes[..|nodes| - 1], nodes[|nodes| - 1];
      RowsAreDistinct(policy, root, init);
      var shown := Unfolded(policy, root, init);
      var rows := RowsOf(policy, shown);
      if !IsFolded(policy, root, last.path) {
        assert (shown + [last])[..|shown|] == shown;
        LastPathIsNew(policy, root, nodes);
        DistinctSnoc(rows, NodeRow(policy, last));
      }
    }
  }

  lemma ScanRowsAreDistinct(policy: Policy, n: Node)
    requires WellShaped(n)
    ensures DistinctPaths(NodeRows(policy, n))
  {
    SubtreeIsPostOrder(n);
    RowsAreDistinct(policy, n, Subtree(n));
    CollapseIsTransparent(policy, n);
  }

  /** Every scan of a tree, collapsed or not, can be inserted into a new snapshot, which then
      reads exactly its rows. */
  lemma ScanIsAccepted(t: Tables, id: SnapshotId, policy: Policy, n: Node)
    requires Coherent(t) && id in t.snapshots && t.snapshots[id].status != Complete && Rows(t, id) == {}
    requires WellShaped(n)
    ensures InsertRows(t, id, NodeRows(policy, n)).Applied?
    ensures Rows(InsertRows(t, id, NodeRows(policy, n)).tables, id) == Members(NodeRows(policy, n))
  {
    ScanRowsAreDistinct(policy, n);
    FreshInsert(t, id, NodeRows(policy, n));
  }

  /** A successful collection of any scan is a run of the store: nothing in it can fail. */
  lemma ScanCanBeCollected(t: Tables, root: Root, policy: Policy, n: Node, start: int, end: int)
    requires Coherent(t) && WellShaped(n)
    ensures CanRun(t, Collection(t, root, NodeRows(policy, n), start, end, []))
  {
    var id := NextId(t.snapshots.Keys);
    var rows := NodeRows(policy, n);
    var finish := Finish(id, Complete, end);
    CreateReads(t, root, start);
    var t1 := Apply(t, Create(root, start));
    ScanIsAccepted(t1, id, policy, n);
    InsertRowsReads(t1, id, rows);
    var t2 := Apply(t1, Insert(id, rows));
    assert Enabled(t2, finish);
    RunCons(t2, finish, []);
    RunCons(t1, Insert(id, rows), [finish] + []);
    RunCons(t, Create(root, start), [Insert(id, rows)] + ([finish] + []));
  }
}
