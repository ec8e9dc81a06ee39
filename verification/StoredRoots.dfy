/** A stored scan has one row of depth zero, its root's, so the totals that are looked up are the root's. */
module StoredRoots {
  import opened Models
  import opened Tables
  import opened Operations
  import opened Walk
  import opened ScanShape
  import opened Collapse
  import opened RootTotals

  /** Every directory below another is deeper. */
  lemma {:induction false} BelowIsDeeper(n: Node, m: Node)
    requires WellShaped(n) && m in Subtree(n)
    ensures m.depth >= n.depth && (m.depth == n.depth ==> m == n)
    decreases n
  {
    if m in ItemsSubtree(n.items) {
      var i := ItemsAreBelow(n, n.items, m);
      assert ShapedItem(n.path, n.depth, n.items[i]);
      BelowIsDeeper(n.items[i].node, m);
    }
  }

  lemma RowOfDepth(policy: Policy, n: Node, r: DirectoryAggregate)
    requires WellShaped(n)
    ensures r in NodeRows(policy, n) && r.facts.depth == n.depth <==> r == NodeRow(policy, n)
  {
    RowNumbers(policy, n);
    if r in NodeRows(policy, n) && r.facts.depth == n.depth {
      RowComesFrom(policy, n, r);
      var m :| m in Subtree(n) && !IsFolded(policy, n, m.path) && NodeRow(policy, m) == r;
      RowNumbers(policy, m);
      BelowIsDeeper(n, m);
    }
  }

  /** A stored scan of a root has exactly one row of depth zero. */
  lemma RootRowIsUnique(t: Tables, id: SnapshotId, policy: Policy, n: Node, r: DirectoryAggregate)
    requires id in t.snapshots && WellShaped(n) && n.depth == 0 && Rows(t, id) == Members(NodeRows(policy, n))
    ensures IsRootRow(t, id, r) <==> r == NodeRow(policy, n)
  {
    RowOfDepth(policy, n, r);
  }

  /** What is looked up for a stored scan is the total of its whole tree. */
  lemma FoundIsTreeTotal(t: Tables, id: SnapshotId, policy: Policy, n: Node, totals: map<SnapshotId, RootTotal>)
    requires id in t.snapshots && WellShaped(n) && n.depth == 0 && Rows(t, id) == Members(NodeRows(policy, n))
    requires FoundRight(t, id, totals)
    ensures
      var all := NodeTotals(n);
      id in totals && totals[id] == RootTotal(all.apparentBytes, all.diskBytes, all.fileCount, all.dirCount)
  {
    RootRowIsUnique(t, id, policy, n, NodeRow(policy, n));
    assert HasRootRow(t, id) by {
      assert NodeRow(policy, n) in Rows(t, id);
    }
    var r :| r in Rows(t, id) && r.facts.depth == 0 && totals[id] == RootTotals.TotalOf(r.facts);
    RootRowIsUnique(t, id, policy, n, r);
    RowNumbers(policy, n);
  }
}
