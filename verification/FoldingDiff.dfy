/** Folding is never reported as a change: two scans of one unchanged tree, under any two
    collapse policies. */
module FoldingDiff {
  import opened Models
  import opened Paths
  import opened Dominance
  import opened Diff
  import opened Walk
  import opened ScanShape
  import opened Collapse

  /** The table holds exactly the rows. */
  ghost predicate Tabulates(t: Table, rows: seq<DirectoryAggregate>) {
    (forall r :: r in rows ==> r.path in t && t[r.path] == r) &&
    (forall p {:trigger p in t} :: p in t ==> t[p] in rows && t[p].path == p)
  }

  lemma TableHasRow(t: Table, rows: seq<DirectoryAggregate>, path: Bytes)
    requires Tabulates(t, rows)
    ensures path in t <==> HasRow(rows, path)
  {
  }

  /** A row that vanished is below a directory that is collapsed now. */
  lemma VanishedIsHidden(p: Policy, q: Policy, n: Node, previous: Table, current: Table, path: Bytes)
    requires WellShaped(n) && Tabulates(previous, NodeRows(p, n)) && Tabulates(current, NodeRows(q, n))
    requires path in previous && path !in current
    ensures BelowAny(path, CollapsedPaths(current))
  {
    TableHasRow(previous, NodeRows(p, n), path);
    TableHasRow(current, NodeRows(q, n), path);
    HasRowIff(p, n, path);
    HasRowIff(q, n, path);
    FoldedIffBelowRow(q, n, path);
    var r :| r in NodeRows(q, n) && r.facts.collapsed && IsBelow(path, r.path);
    assert r.path in CollapsedPaths(current);
  }

  /** A row of both scans is unchanged. */
  lemma SharedIsUnchanged(p: Policy, q: Policy, n: Node, previous: Table, current: Table, path: Bytes)
    requires WellShaped(n) && Tabulates(previous, NodeRows(p, n)) && Tabulates(current, NodeRows(q, n))
    requires path in previous && path in current
    ensures RawClassification(At(previous, path), At(current, path)) == Unchanged
  {
    PoliciesAgreeOnNumbers(p, q, n, previous[path], current[path]);
  }

  /** No row is reported as deleted, grown or shrunk; what vanished is hidden by collapse, and what
      appeared was hidden before. */
  lemma FoldingIsNotChange(p: Policy, q: Policy, n: Node, previous: Table, current: Table, path: Bytes)
    requires WellShaped(n) && Tabulates(previous, NodeRows(p, n)) && Tabulates(current, NodeRows(q, n))
    requires path in DiffOf(previous, current, true)
    ensures
      DiffOf(previous, current, true)[path].classification
      == if path !in previous then Created else if path !in current then HiddenByCollapse else Unchanged
    ensures path !in previous ==> BelowAny(path, CollapsedPaths(previous))
  {
    CollapsedEitherWay(previous, current);
    if path !in previous {
      VanishedIsHidden(q, p, n, current, previous, path);
    } else if path !in current {
      VanishedIsHidden(p, q, n, previous, current, path);
    } else {
      SharedIsUnchanged(p, q, n, previous, current, path);
    }
  }

  // ----- depth is a property of the path

  /** Steps of the parent walk. */
  function Steps(path: Bytes): nat {
    |Ancestors(path)|
  }

  lemma {:induction false} DepthCountsSteps(n: Node, m: Node)
    requires WellShaped(n) && m in Subtree(n)
    ensures m.depth - n.depth == Steps(m.path) - Steps(n.path)
    decreases n
  {
    if m in ItemsSubtree(n.items) {
      var i := ItemsAreBelow(n, n.items, m);
      assert ShapedItem(n.path, n.depth, n.items[i]);
      DepthCountsSteps(n.items[i].node, m);
    }
  }

  lemma DepthOfRow(policy: Policy, n: Node, r: DirectoryAggregate)
    requires WellShaped(n) && r in NodeRows(policy, n)
    ensures r.facts.depth - n.depth == Steps(r.path) - Steps(n.path)
  {
    RowComesFrom(policy, n, r);
    var m :| m in Subtree(n) && !IsFolded(policy, n, m.path) && NodeRow(policy, m) == r;
    DepthCountsSteps(n, m);
  }

  predicate DepthsAgree(previous: Table, current: Table) {
    forall p {:trigger p in previous} {:trigger p in current} :: p in previous && p in current ==>
      previous[p].facts.depth == current[p].facts.depth
  }

  /** Any two scans of one root, of different trees and under different policies, agree on depths. */
  lemma ScansAgreeOnDepths(p: Policy, q: Policy, before: Node, after: Node, previous: Table, current: Table)
    requires WellShaped(before) && WellShaped(after) && before.path == after.path && before.depth == after.depth
    requires Tabulates(previous, NodeRows(p, before)) && Tabulates(current, NodeRows(q, after))
    ensures DepthsAgree(previous, current)
  {
    forall path | path in previous && path in current
      ensures previous[path].facts.depth == current[path].facts.depth
    {
      DepthOfRow(p, before, previous[path]);
      DepthOfRow(q, after, current[path]);
    }
  }
}
