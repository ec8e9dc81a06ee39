/** Collapsing hides rows and changes no number: what a collapse policy does to the rows of a
    scan, compared with the scan without one. */
module Collapse {
  import opened Models
  import opened Paths
  import opened Walk
  import opened ScanShape

  type Policy = Option<CollapsePolicy>

  predicate Folds(policy: Policy, m: Node, path: Bytes) {
    Reason(policy, m).Some? && IsBelow(path, m.path)
  }

  /** Below a directory of the tree that collapses. */
  predicate IsFolded(policy: Policy, root: Node, path: Bytes) {
    exists m {:trigger Folds(policy, m, path)} :: m in Subtree(root) && Folds(policy, m, path)
  }

  function Unfolded(policy: Policy, root: Node, nodes: seq<Node>): seq<Node> {
    if nodes == [] then []
    else
      var before, last := Unfolded(policy, root, nodes[..|nodes| - 1]), nodes[|nodes| - 1];
      if IsFolded(policy, root, last.path) then before else before + [last]
  }

  function RowsOf(policy: Policy, nodes: seq<Node>): seq<DirectoryAggregate> {
    if nodes == [] then []
    else RowsOf(policy, nodes[..|nodes| - 1]) + [NodeRow(policy, nodes[|nodes| - 1])]
  }

  lemma {:induction false} UnfoldedConcat(policy: Policy, root: Node, a: seq<Node>, b: seq<Node>)
    ensures Unfolded(policy, root, a + b) == Unfolded(policy, root, a) + Unfolded(policy, root, b)
    decreases |b|
  {
    if b == [] {
      assert a + b == a;
    } else {
      assert (a + b)[..|a + b| - 1] == a + b[..|b| - 1];
      UnfoldedConcat(policy, root, a, b[..|b| - 1]);
    }
  }

  lemma {:induction false} UnfoldedSame(policy: Policy, a: Node, b: Node, nodes: seq<Node>)
    requires forall m :: m in nodes ==> (IsFolded(policy, a, m.path) <==> IsFolded(policy, b, m.path))
    ensures Unfolded(policy, a, nodes) == Unfolded(policy, b, nodes)
    decreases |nodes|
  {
    if nodes != [] {
      UnfoldedSame(policy, a, b, nodes[..|nodes| - 1]);
    }
  }

  lemma {:induction false} UnfoldedNone(policy: Policy, root: Node, nodes: seq<Node>)
    requires forall m :: m in nodes ==> IsFolded(policy, root, m.path)
    ensures Unfolded(policy, root, nodes) == []
    decreases |nodes|
  {
    if nodes != [] {
      UnfoldedNone(policy, root, nodes[..|nodes| - 1]);
    }
  }

  lemma {:induction false} RowsOfConcat(policy: Policy, a: seq<Node>, b: seq<Node>)
    ensures RowsOf(policy, a + b) == RowsOf(policy, a) + RowsOf(policy, b)
    decreases |b|
  {
    if b == [] {
      assert a + b == a;
    } else {
      assert (a + b)[..|a + b| - 1] == a + b[..|b| - 1];
      RowsOfConcat(policy, a, b[..|b| - 1]);
    }
  }

  // ----- which rows remain

  lemma RootIsUnfolded(policy: Policy, n: Node)
    requires WellShaped(n)
    ensures !IsFolded(policy, n, n.path)
  {
    forall m | m in Subtree(n)
      ensures !Folds(policy, m, n.path)
    {
      SubtreeIsBelow(n, m);
      BelowIsLonger(n.path, m.path);
      BelowIsLonger(m.path, n.path);
    }
  }

  /** Folding below a directory that does not collapse itself is decided by its children. */
  lemma FoldedInChild(policy: Policy, n: Node, i: int, y: Node)
    requires WellShaped(n) && Reason(policy, n).None?
    requires 0 <= i < |n.items| && n.items[i].Child? && y in Subtree(n.items[i].node)
    ensures IsFolded(policy, n, y.path) <==> IsFolded(policy, n.items[i].node, y.path)
  {
    var child := n.items[i].node;
    assert ShapedItem(n.path, n.depth, n.items[i]);
    SubtreeIsBelow(child, y);
    if IsFolded(policy, n, y.path) {
      var m :| m in Subtree(n) && Folds(policy, m, y.path);
      FoldedWithin(n, m, i, y);
    }
    if IsFolded(policy, child, y.path) {
      var m :| m in Subtree(child) && Folds(policy, m, y.path);
      ChildSubtree(n.items, i, m);
    }
  }

  lemma UnfoldedOfChild(policy: Policy, n: Node, i: int)
    requires WellShaped(n) && Reason(policy, n).None? && 0 <= i < |n.items| && n.items[i].Child?
    ensures
      var child := n.items[i].node;
      Unfolded(policy, n, Subtree(child)) == Unfolded(policy, child, Subtree(child))
  {
    var child := n.items[i].node;
    forall y | y in Subtree(child)
      ensures IsFolded(policy, n, y.path) <==> IsFolded(policy, child, y.path)
    {
      FoldedInChild(policy, n, i, y);
    }
    UnfoldedSame(policy, n, child, Subtree(child));
  }

  lemma FoldedWithin(n: Node, m: Node, i: int, y: Node)
    requires WellShaped(n) && m in ItemsSubtree(n.items) && IsBelow(y.path, m.path) && Through(n.items, y.path, i)
    ensures m in Subtree(n.items[i].node)
  {
    var j := ItemsAreBelow(n, n.items, m);
    AtOrBelowIsTransitive(y.path, m.path, n.items[j].node.path);
    ChildrenAreApart(n, y.path, i, j);
  }

  lemma UnfoldedSubtree(policy: Policy, n: Node)
    requires WellShaped(n)
    ensures
      Unfolded(policy, n, Subtree(n))
      == (if Reason(policy, n).Some? then [] else Unfolded(policy, n, ItemsSubtree(n.items))) + [n]
  {
    UnfoldedConcat(policy, n, ItemsSubtree(n.items), [n]);
    RootIsUnfolded(policy, n);
    assert Unfolded(policy, n, [n]) == [] + [n];
    if Reason(policy, n).Some? {
      forall m | m in ItemsSubtree(n.items)
        ensures IsFolded(policy, n, m.path)
      {
        SubtreeIsBelow(n, m);
        assert Folds(policy, n, m.path);
      }
      UnfoldedNone(policy, n, ItemsSubtree(n.items));
    }
  }

  /** The rows under a policy are exactly those of the directories that are not folded. */
  lemma {:induction false} CollapseIsTransparent(policy: Policy, n: Node)
    requires WellShaped(n)
    ensures NodeRows(policy, n) == RowsOf(policy, Unfolded(policy, n, Subtree(n)))
    decreases n, 1, 0
  {
    UnfoldedSubtree(policy, n);
    var shown := if Reason(policy, n).Some? then [] else Unfolded(policy, n, ItemsSubtree(n.items));
    RowsOfConcat(policy, shown, [n]);
    assert RowsOf(policy, [n]) == [] + [NodeRow(policy, n)];
    if Reason(policy, n).None? {
      ItemsAreTransparent(policy, n, n.items);
    }
  }

  lemma TransparentAppend(policy: Policy, n: Node, items: seq<Item>)
    requires items != []
    requires
      var init, item := items[..|items| - 1], items[|items| - 1];
      ItemsRows(policy, init) == RowsOf(policy, Unfolded(policy, n, ItemsSubtree(init))) &&
      ItemRows(policy, item) == RowsOf(policy, Unfolded(policy, n, ItemSubtree(item)))
    ensures ItemsRows(policy, items) == RowsOf(policy, Unfolded(policy, n, ItemsSubtree(items)))
  {
    var init, item := items[..|items| - 1], items[|items| - 1];
    UnfoldedConcat(policy, n, ItemsSubtree(init), ItemSubtree(item));
    RowsOfConcat(policy, Unfolded(policy, n, ItemsSubtree(init)), Unfolded(policy, n, ItemSubtree(item)));
  }

  lemma ChildIsTransparent(policy: Policy, n: Node, i: nat)
    requires WellShaped(n) && i < |n.items| && Reason(policy, n).None? && n.items[i].Child?
    requires
      var child := n.items[i].node;
      NodeRows(policy, child) == RowsOf(policy, Unfolded(policy, child, Subtree(child)))
    ensures ItemRows(policy, n.items[i]) == RowsOf(policy, Unfolded(policy, n, ItemSubtree(n.items[i])))
  {
    UnfoldedOfChild(policy, n, i);
  }

  lemma {:induction false} ItemsAreTransparent(policy: Policy, n: Node, items: seq<Item>)
    requires WellShaped(n) && items <= n.items && Reason(policy, n).None?
    ensures ItemsRows(policy, items) == RowsOf(policy, Unfolded(policy, n, ItemsSubtree(items)))
    decreases n, 0, |items|
  {
    if items != [] {
      var last := |items| - 1;
      ItemsAreTransparent(policy, n, items[..last]);
      assert items[last] == n.items[last];
      if items[last].Child? {
        assert ShapedItem(n.path, n.depth, n.items[last]);
        CollapseIsTransparent(policy, items[last].node);
        ChildIsTransparent(policy, n, last);
      }
      TransparentAppend(policy, n, items);
    }
  }

  // ----- consequences for single rows

  lemma {:induction false} RowsOfMember(policy: Policy, nodes: seq<Node>, r: DirectoryAggregate)
    ensures r in RowsOf(policy, nodes) <==> exists m :: m in nodes && NodeRow(policy, m) == r
    decreases |nodes|
  {
    if nodes != [] {
      var last := |nodes| - 1;
      RowsOfMember(policy, nodes[..last], r);
      assert nodes == nodes[..last] + [nodes[last]];
    }
  }

  lemma {:induction false} UnfoldedMember(policy: Policy, root: Node, nodes: seq<Node>, m: Node)
    ensures m in Unfolded(policy, root, nodes) <==> m in nodes && !IsFolded(policy, root, m.path)
    decreases |nodes|
  {
    if nodes != [] {
      var last := |nodes| - 1;
      UnfoldedMember(policy, root, nodes[..last], m);
      assert nodes == nodes[..last] + [nodes[last]];
    }
  }

  lemma SubtreePathsAreUnique(n: Node, a: Node, b: Node)
    requires WellShaped(n) && a in Subtree(n) && b in Subtree(n) && a.path == b.path
    ensures a == b
  {
    SubtreeIsPostOrder(n);
    var i :| 0 <= i < |Subtree(n)| && Subtree(n)[i] == a;
    var j :| 0 <= j < |Subtree(n)| && Subtree(n)[j] == b;
    assert !(i < j) && !(j < i);
  }

  /** A row comes from exactly one visited directory that is not folded. */
  lemma RowComesFrom(policy: Policy, n: Node, r: DirectoryAggregate)
    requires WellShaped(n)
    ensures r in NodeRows(policy, n) <==>
            exists m :: m in Subtree(n) && !IsFolded(policy, n, m.path) && NodeRow(policy, m) == r
  {
    CollapseIsTransparent(policy, n);
    RowsOfMember(policy, Unfolded(policy, n, Subtree(n)), r);
    forall m
      ensures m in Unfolded(policy, n, Subtree(n)) <==> m in Subtree(n) && !IsFolded(policy, n, m.path)
    {
      UnfoldedMember(policy, n, Subtree(n), m);
    }
  }

  predicate HasRow(rows: seq<DirectoryAggregate>, path: Bytes) {
    exists r :: r in rows && r.path == path
  }

  /** A visited directory keeps its row exactly when nothing above it collapses, and the row
      has the numbers of the scan without a policy. */
  lemma RowKeptIffUnfolded(policy: Policy, n: Node, m: Node)
    requires WellShaped(n) && m in Subtree(n)
    ensures HasRow(NodeRows(policy, n), m.path) <==> !IsFolded(policy, n, m.path)
    ensures NodeRow(None, m) in NodeRows(None, n)
    ensures forall r :: r in NodeRows(policy, n) && r.path == m.path ==>
              r.parentPath == m.parentPath && r.facts.depth == m.depth &&
              r.facts.totals == NodeRow(None, m).facts.totals
  {
    forall r | r in NodeRows(policy, n) && r.path == m.path
      ensures !IsFolded(policy, n, m.path) && r == NodeRow(policy, m)
    {
      RowComesFrom(policy, n, r);
      var k :| k in Subtree(n) && !IsFolded(policy, n, k.path) && NodeRow(policy, k) == r;
      SubtreePathsAreUnique(n, k, m);
    }
    RowComesFrom(policy, n, NodeRow(policy, m));
    if !IsFolded(policy, n, m.path) {
      assert NodeRow(policy, m) in NodeRows(policy, n);
    }
    assert !IsFolded(None, n, m.path);
    RowComesFrom(None, n, NodeRow(None, m));
  }

  // ----- protected paths

  lemma AboveProtected(never: seq<Bytes>, path: Bytes, above: Bytes)
    requires forall i :: 0 <= i < |never| ==> Canonical(never[i])
    requires Canonical(path) && Canonical(above) && IsBelow(path, above)
    requires IsProtected(path, never)
    ensures IsProtected(above, never)
  {
    var i :| 0 <= i < |never| && (IsSameOrDescendant(path, never[i]) || IsSameOrDescendant(never[i], path));
    var kept := never[i];
    WalkIsPrefixTest(path, kept);
    WalkIsPrefixTest(kept, path);
    WalkIsPrefixTest(above, kept);
    WalkIsPrefixTest(kept, above);
    if AtOrBelow(path, kept) {
      if path != kept {
        AncestorsAreComparable(path, kept, above);
      }
    } else {
      BelowIsTransitive(kept, path, above);
    }
    assert IsSameOrDescendant(above, kept) || IsSameOrDescendant(kept, above);
  }

  /** A visited directory on the way to or below a path that must keep its rows has its own,
      uncollapsed row. */
  lemma ProtectedKeepsItsRow(policy: CollapsePolicy, n: Node, m: Node)
    requires WellShaped(n) && m in Subtree(n) && IsProtected(m.path, policy.never)
    requires forall i :: 0 <= i < |policy.never| ==> Canonical(policy.never[i])
    ensures PlainRow(m) in NodeRows(Some(policy), n)
  {
    SubtreeIsShaped(n, m);
    forall k | k in Subtree(n)
      ensures !Folds(Some(policy), k, m.path)
    {
      if IsBelow(m.path, k.path) {
        SubtreeIsShaped(n, k);
        AboveProtected(policy.never, m.path, k.path);
      }
    }
    RowComesFrom(Some(policy), n, NodeRow(Some(policy), m));
  }

  // ----- the rows as a table

  /** Below a row that is marked as collapsed. */
  predicate BelowCollapsedRow(rows: seq<DirectoryAggregate>, path: Bytes) {
    exists r :: r in rows && r.facts.collapsed && IsBelow(path, r.path)
  }

  /** A folded directory is always below a collapsed row that was written. */
  lemma {:induction false} FoldedBelowRow(policy: Policy, n: Node, path: Bytes)
    requires WellShaped(n) && IsFolded(policy, n, path)
    ensures BelowCollapsedRow(NodeRows(policy, n), path)
    decreases n
  {
    var m :| m in Subtree(n) && Folds(policy, m, path);
    if Reason(policy, n).Some? {
      SubtreeIsBelow(n, m);
      AtOrBelowIsTransitive(path, m.path, n.path);
      assert NodeRow(policy, n) in NodeRows(policy, n);
    } else {
      var i := ItemsAreBelow(n, n.items, m);
      assert ShapedItem(n.path, n.depth, n.items[i]);
      FoldedBelowRow(policy, n.items[i].node, path);
      var r :| r in NodeRows(policy, n.items[i].node) && r.facts.collapsed && IsBelow(path, r.path);
      ChildRows(policy, n.items, i, r);
    }
  }

  lemma {:induction false} ChildRows(policy: Policy, items: seq<Item>, i: int, r: DirectoryAggregate)
    requires 0 <= i < |items| && items[i].Child? && r in NodeRows(policy, items[i].node)
    ensures r in ItemsRows(policy, items)
    decreases |items|
  {
    if i < |items| - 1 {
      ChildRows(policy, items[..|items| - 1], i, r);
    }
  }

  /** No path has two rows. */
  lemma RowPathsAreUnique(policy: Policy, n: Node, r: DirectoryAggregate, t: DirectoryAggregate)
    requires WellShaped(n) && r in NodeRows(policy, n) && t in NodeRows(policy, n) && r.path == t.path
    ensures r == t
  {
    RowComesFrom(policy, n, r);
    RowComesFrom(policy, n, t);
    var a :| a in Subtree(n) && !IsFolded(policy, n, a.path) && NodeRow(policy, a) == r;
    var b :| b in Subtree(n) && !IsFolded(policy, n, b.path) && NodeRow(policy, b) == t;
    SubtreePathsAreUnique(n, a, b);
  }

  /** Every row but that of the root has its parent's row in the same scan. */
  lemma ParentRowIsKept(policy: Policy, n: Node, r: DirectoryAggregate)
    requires WellShaped(n) && r in NodeRows(policy, n) && r.path != n.path
    ensures exists p :: p in NodeRows(policy, n) && r.parentPath == Some(p.path) && ParentOf(r.path) == Some(p.path) &&
              !p.facts.collapsed && r.facts.depth == p.facts.depth + 1
  {
    RowComesFrom(policy, n, r);
    var m :| m in Subtree(n) && !IsFolded(policy, n, m.path) && NodeRow(policy, m) == r;
    var parent, i := ParentIsVisited(n, m);
    forall k | k in Subtree(n)
      ensures !Folds(policy, k, parent.path)
    {
      if IsBelow(parent.path, k.path) {
        BelowIsTransitive(m.path, parent.path, k.path);
        assert !Folds(policy, k, m.path);
      }
    }
    RowComesFrom(policy, n, NodeRow(policy, parent));
    assert IsBelow(m.path, parent.path);
    assert !Folds(policy, parent, m.path);
    assert NodeRow(policy, parent) in NodeRows(policy, n);
  }

  predicate Visits(n: Node, path: Bytes) {
    exists m {:trigger m in Subtree(n)} :: m in Subtree(n) && m.path == path
  }

  lemma HasRowIff(policy: Policy, n: Node, path: Bytes)
    requires WellShaped(n)
    ensures HasRow(NodeRows(policy, n), path) <==> Visits(n, path) && !IsFolded(policy, n, path)
  {
    if HasRow(NodeRows(policy, n), path) {
      var r :| r in NodeRows(policy, n) && r.path == path;
      RowComesFrom(policy, n, r);
    }
    if Visits(n, path) {
      var m :| m in Subtree(n) && m.path == path;
      RowKeptIffUnfolded(policy, n, m);
    }
  }

  lemma FoldedIffBelowRow(policy: Policy, n: Node, path: Bytes)
    requires WellShaped(n)
    ensures IsFolded(policy, n, path) <==> BelowCollapsedRow(NodeRows(policy, n), path)
  {
    if IsFolded(policy, n, path) {
      FoldedBelowRow(policy, n, path);
    }
    if BelowCollapsedRow(NodeRows(policy, n), path) {
      var r :| r in NodeRows(policy, n) && r.facts.collapsed && IsBelow(path, r.path);
      RowComesFrom(policy, n, r);
      var m :| m in Subtree(n) && !IsFolded(policy, n, m.path) && NodeRow(policy, m) == r;
      assert Folds(policy, m, path);
    }
  }

  /** The scan under a policy has exactly the rows of the scan without one that are not below
      a row it marks as collapsed. */
  lemma CollapsedScanFiltersPlainScan(policy: Policy, n: Node, path: Bytes)
    requires WellShaped(n)
    ensures HasRow(NodeRows(policy, n), path) <==>
            HasRow(NodeRows(None, n), path) && !BelowCollapsedRow(NodeRows(policy, n), path)
  {
    HasRowIff(policy, n, path);
    HasRowIff(None, n, path);
    FoldedIffBelowRow(policy, n, path);
    assert !IsFolded(None, n, path);
  }

  /** Two scans of one tree under any two policies agree on every number of the rows they share. */
  lemma PoliciesAgreeOnNumbers(p: Policy, q: Policy, n: Node, r: DirectoryAggregate, t: DirectoryAggregate)
    requires WellShaped(n) && r in NodeRows(p, n) && t in NodeRows(q, n) && r.path == t.path
    ensures r.parentPath == t.parentPath && r.facts.depth == t.facts.depth && r.facts.totals == t.facts.totals
  {
    RowComesFrom(p, n, r);
    RowComesFrom(q, n, t);
    var a :| a in Subtree(n) && !IsFolded(p, n, a.path) && NodeRow(p, a) == r;
    var b :| b in Subtree(n) && !IsFolded(q, n, b.path) && NodeRow(q, b) == t;
    RowNumbers(p, a);
    RowNumbers(q, b);
    SubtreePathsAreUnique(n, a, b);
  }

  /** The numbers of a row do not depend on whether it is collapsed. */
  lemma RowNumbers(policy: Policy, n: Node)
    ensures
      var r := NodeRow(policy, n);
      r.path == n.path && r.parentPath == n.parentPath && r.facts.depth == n.depth && r.facts.totals == NodeTotals(n)
  {
  }
}
