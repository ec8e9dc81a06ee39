/** On the rows of a scan every row holds at least what the rows directly below it hold, so no
    storage-domain total is negative. */
module DomainScan {
  import opened Models
  import opened Paths
  import opened Sums
  import opened Walk
  import opened ScanShape
  import opened ScanTotals
  import opened Collapse
  import Domains = StorageDomains

  // ----- sizes that are not negative

  predicate NonNegativeItem(item: Item)
    decreases item
  {
    match item
    case Plain(effect) =>
      effect.use.File? ==> Walk.DiskBytes(effect.use.file) >= 0 && Walk.ApparentBytes(effect.use.file) >= 0
    case Child(_, node) => NonNegative(node)
  }

  predicate NonNegative(n: Node)
    decreases n
  {
    n.own.diskBytes >= 0 && n.own.apparentBytes >= 0 && AllNonNegative(n.items)
  }

  predicate AllNonNegative(items: seq<Item>)
    decreases items
  {
    forall i :: 0 <= i < |items| ==> NonNegativeItem(items[i])
  }

  lemma AllNonNegativeCons(item: Item, rest: seq<Item>)
    requires NonNegativeItem(item) && AllNonNegative(rest)
    ensures AllNonNegative([item] + rest)
  {
  }

  /** st_size and st_blocks are never negative. */
  ghost predicate SizesAreSane(fs: FileSystem) {
    forall path: Bytes :: fs.list(path).Entries? ==> EntriesAreSane(fs.list(path).entries)
  }

  predicate EntriesAreSane(entries: seq<Entry>) {
    forall i :: 0 <= i < |entries| ==>
      (entries[i].stat.IsDirectory? ==> StatIsSane(entries[i].stat.directory)) &&
      (entries[i].stat.IsFile? ==> entries[i].stat.file.size >= 0 && entries[i].stat.file.blocks >= 0)
  }

  predicate StatIsSane(stat: DirectoryStat) {
    stat.size >= 0 && stat.blocks >= 0
  }

  lemma HandledIsSane(s: Setup, chain: seq<Link>, d: Visit, entries: seq<Entry>, seen: set<Key>)
    requires entries != [] && EntriesAreSane(entries)
    ensures
      var h := Handle(s, chain, d, entries[0], seen);
      if h.Descend? then StatIsSane(h.visit.stat) else NonNegativeItem(h.item)
    ensures EntriesAreSane(entries[1..])
  {
  }

  lemma {:induction false} WalkIsNotNegative(s: Setup, fs: FileSystem, chain: seq<Link>, d: Visit, seen: set<Key>)
    requires fs.Valid() && SizesAreSane(fs) && StatIsSane(d.stat)
    ensures NonNegative(WalkDirectory(s, fs, chain, d, seen).node)
    decreases fs.keys - ChainKeys(chain + [LinkOf(d)]), 1, 0
  {
    if fs.list(d.path).Entries? {
      assert DirectoriesIn(fs.list(d.path), fs.keys);
      EntriesAreNotNegative(s, fs, chain + [LinkOf(d)], d, fs.list(d.path).entries, seen);
    }
  }

  lemma {:induction false} EntriesAreNotNegative(s: Setup, fs: FileSystem, chain: seq<Link>, d: Visit,
                                                 entries: seq<Entry>, seen: set<Key>)
    requires fs.Valid() && SizesAreSane(fs) && EntriesIn(entries, fs.keys) && EntriesAreSane(entries)
    ensures AllNonNegative(WalkEntries(s, fs, chain, d, entries, seen).items)
    decreases fs.keys - ChainKeys(chain), 0, |entries|
  {
    if entries != [] {
      HandledIsSane(s, chain, d, entries, seen);
      assert forall i :: 0 <= i < |entries[1..]| ==> entries[1..][i] == entries[i + 1];
      match Handle(s, chain, d, entries[0], seen)
      case Next(item, seen') =>
        EntriesAreNotNegative(s, fs, chain, d, entries[1..], seen');
        AllNonNegativeCons(item, WalkEntries(s, fs, chain, d, entries[1..], seen').items);
      case Abandon(item) =>
      case Descend(effect, visit) =>
        DescendShrinks(s, fs, chain, d, entries[0], seen);
        WalkIsNotNegative(s, fs, chain, visit, seen);
        var child := WalkDirectory(s, fs, chain, visit, seen);
        EntriesAreNotNegative(s, fs, chain, d, entries[1..], child.seen);
        AllNonNegativeCons(Child(effect, child.node), WalkEntries(s, fs, chain, d, entries[1..], child.seen).items);
    }
  }

  function ColumnFor(m: Domains.Measure): Column {
    if m == Domains.DiskBytes then Disk else Apparent
  }

  lemma {:induction false} NodeIsNotNegative(m: Domains.Measure, n: Node)
    requires NonNegative(n)
    ensures ColumnOf(ColumnFor(m), NodeTotals(n)) >= 0
    decreases n, 1, 0
  {
    ItemsOnlyAdd(m, n, n.items);
  }

  lemma {:induction false} ItemsOnlyAdd(m: Domains.Measure, n: Node, items: seq<Item>)
    requires NonNegative(n) && items <= n.items
    ensures ColumnOf(ColumnFor(m), TotalsFrom(n.own, items)) >= 0
    decreases n, 0, |items|
  {
    if items != [] {
      var last := |items| - 1;
      ItemsOnlyAdd(m, n, items[..last]);
      LastItemAdds(m, n, items);
    }
  }

  /** What the last item adds to a running total: at least nothing, and all of a child. */
  lemma {:induction false} LastItemAdds(m: Domains.Measure, n: Node, items: seq<Item>)
    requires NonNegative(n) && items <= n.items && items != []
    ensures
      var last := |items| - 1;
      var c := ColumnFor(m);
      ColumnOf(c, TotalsFrom(n.own, items))
      >= ColumnOf(c, TotalsFrom(n.own, items[..last])) +
         (if items[last].Child? then ColumnOf(c, NodeTotals(items[last].node)) else 0) &&
      (items[last].Child? ==> ColumnOf(c, NodeTotals(items[last].node)) >= 0)
    decreases n, 0, 0
  {
    var last := |items| - 1;
    assert NonNegativeItem(n.items[last]);
    AddItemColumn(ColumnFor(m), TotalsFrom(n.own, items[..last]), items[last]);
    if items[last].Child? {
      NodeIsNotNegative(m, items[last].node);
    }
  }

  lemma {:induction false} SubtreeIsNotNegative(n: Node, m: Node)
    requires WellShaped(n) && NonNegative(n) && m in Subtree(n)
    ensures NonNegative(m)
    decreases n
  {
    if m in ItemsSubtree(n.items) {
      var i := ItemsAreBelow(n, n.items, m);
      assert ShapedItem(n.path, n.depth, n.items[i]) && NonNegativeItem(n.items[i]);
      SubtreeIsNotNegative(n.items[i].node, m);
    }
  }

  // ----- the rows of a scan as the table that is totalled

  /** The rows that the table holds are those of the scan. */
  ghost predicate Holds(x: Domains.Indexed, policy: Policy, n: Node) {
    (forall r :: r in NodeRows(policy, n) ==> r.path in x.rows && IsRow(x, r)) &&
    (forall p {:trigger p in x.rows} :: p in x.rows ==> HasRow(NodeRows(policy, n), p))
  }

  predicate IsRow(x: Domains.Indexed, r: DirectoryAggregate) {
    r.path in x.rows &&
    x.rows[r.path] == Domains.IndexedRow(r.parentPath, r.facts.totals.diskBytes, r.facts.totals.apparentBytes)
  }

  /** The node behind a row of the table. */
  lemma NodeAt(x: Domains.Indexed, policy: Policy, n: Node, p: Bytes) returns (m: Node)
    requires WellShaped(n) && Holds(x, policy, n) && p in x.rows
    ensures m in Subtree(n) && !IsFolded(policy, n, m.path) && m.path == p
    ensures x.rows[p].parentPath == m.parentPath
    ensures forall k :: Domains.Amount(x, k, p) == ColumnOf(ColumnFor(k), NodeTotals(m))
  {
    var r :| r in NodeRows(policy, n) && r.path == p;
    assert IsRow(x, r);
    RowComesFrom(policy, n, r);
    m :| m in Subtree(n) && !IsFolded(policy, n, m.path) && NodeRow(policy, m) == r;
  }

  /** A row directly below p in the table is a child of the directory at p, which is not collapsed. */
  lemma TakenFromParent(x: Domains.Indexed, policy: Policy, n: Node, m: Node, c: Bytes) returns (i: nat)
    requires WellShaped(n) && n.parentPath.None? && Holds(x, policy, n) && m.path in x.rows && m in Subtree(n)
    requires c in x.rows && Domains.Above(x, c) == Some(m.path)
    ensures i < |m.items| && m.items[i].Child? && m.items[i].node.path == c
    ensures forall k :: Domains.Amount(x, k, c) == ColumnOf(ColumnFor(k), NodeTotals(m.items[i].node))
  {
    var k := NodeAt(x, policy, n, c);
    assert k != n;
    var parent, j := ParentIsVisited(n, k);
    ParentHasRow(x, policy, n, k, parent);
    SubtreePathsAreUnique(n, parent, m);
    i := j;
  }

  lemma ParentHasRow(x: Domains.Indexed, policy: Policy, n: Node, k: Node, parent: Node)
    requires WellShaped(n) && Holds(x, policy, n) && k in Subtree(n) && !IsFolded(policy, n, k.path)
    requires parent in Subtree(n) && Fits(parent.path, parent.depth, k)
    requires k.path in x.rows && x.rows[k.path].parentPath == k.parentPath
    ensures parent.path in x.rows && Domains.Above(x, k.path) == Some(parent.path)
  {
    forall f | f in Subtree(n)
      ensures !Folds(policy, f, parent.path)
    {
      if IsBelow(parent.path, f.path) {
        BelowIsTransitive(k.path, parent.path, f.path);
        assert !Folds(policy, f, k.path);
      }
    }
    RowKeptIffUnfolded(policy, n, parent);
    var r :| r in NodeRows(policy, n) && r.path == parent.path;
    assert IsRow(x, r);
  }

  // ----- children add up to no more than their parent

  predicate ChildAmong(items: seq<Item>, c: Bytes) {
    exists i :: 0 <= i < |items| && items[i].Child? && items[i].node.path == c
  }

  function AmountAmong(x: Domains.Indexed, k: Domains.Measure, items: seq<Item>): Bytes -> int {
    c => if ChildAmong(items, c) then Domains.Amount(x, k, c) else 0
  }

  /** The table has the totals of every child that has a row. */
  predicate ChildrenAgree(x: Domains.Indexed, m: Node) {
    forall i {:trigger m.items[i]} :: 0 <= i < |m.items| && m.items[i].Child? && m.items[i].node.path in x.rows ==>
      forall k: Domains.Measure ::
        Domains.Amount(x, k, m.items[i].node.path) == ColumnOf(ColumnFor(k), NodeTotals(m.items[i].node))
  }

  lemma {:induction false} ChildrenFit(x: Domains.Indexed, k: Domains.Measure, m: Node, items: seq<Item>)
    requires WellShaped(m) && NonNegative(m) && ChildrenAgree(x, m) && items <= m.items
    ensures SumOver(x.rows.Keys, AmountAmong(x, k, items)) <= ColumnOf(ColumnFor(k), TotalsFrom(m.own, items))
    decreases |items|
  {
    if items == [] {
      SumZero(x.rows.Keys, AmountAmong(x, k, items));
    } else {
      ChildrenFit(x, k, m, items[..|items| - 1]);
      LastItemAdds(k, m, items);
      AmountOfLast(x, k, m, items);
    }
  }

  function OnlyAt(c: Bytes, amount: int): Bytes -> int {
    p => if p == c then amount else 0
  }

  lemma AmountOfLast(x: Domains.Indexed, k: Domains.Measure, m: Node, items: seq<Item>)
    requires WellShaped(m) && NonNegative(m) && ChildrenAgree(x, m) && items <= m.items && items != []
    ensures
      var last := |items| - 1;
      SumOver(x.rows.Keys, AmountAmong(x, k, items))
      <= SumOver(x.rows.Keys, AmountAmong(x, k, items[..last])) +
         if items[last].Child? then ColumnOf(ColumnFor(k), NodeTotals(items[last].node)) else 0
  {
    var keys, last := x.rows.Keys, |items| - 1;
    var init, item := items[..last], items[last];
    assert items == init + [item];
    LastItemAdds(k, m, items);
    if item.Child? && item.node.path in keys {
      var c := item.node.path;
      assert m.items[last] == item;
      var only := OnlyAt(c, Domains.Amount(x, k, c));
      forall p | p in keys
        ensures AmountAmong(x, k, init)(p) == AmountAmong(x, k, items)(p) - only(p)
      {
        LastChildIsNew(m, items, p);
      }
      SumSingle(keys, only, c);
      SumDifference(keys, AmountAmong(x, k, items), only, AmountAmong(x, k, init));
    } else {
      forall p | p in keys
        ensures AmountAmong(x, k, init)(p) == AmountAmong(x, k, items)(p)
      {
        LastChildIsNew(m, items, p);
      }
      SumSame(keys, AmountAmong(x, k, items), AmountAmong(x, k, init));
    }
  }

  lemma LastChildIsNew(m: Node, items: seq<Item>, p: Bytes)
    requires WellShaped(m) && items <= m.items && items != []
    ensures
      var init, item := items[..|items| - 1], items[|items| - 1];
      (ChildAmong(items, p) <==> ChildAmong(init, p) || (item.Child? && item.node.path == p)) &&
      !(ChildAmong(init, p) && item.Child? && item.node.path == p)
  {
  }

  // ----- the result

  /** A row of a scan holds at least what the rows directly below it hold. */
  lemma RowsHoldTheirChildren(x: Domains.Indexed, policy: Policy, n: Node, k: Domains.Measure, p: Bytes)
    requires WellShaped(n) && n.parentPath.None? && NonNegative(n) && Holds(x, policy, n) && p in x.rows
    ensures Domains.Exclusive(x, k, p) >= 0
  {
    var m := NodeAt(x, policy, n, p);
    var keys := x.rows.Keys;
    SubtreeIsShaped(n, m);
    SubtreeIsNotNegative(n, m);
    ChildrenHaveTheirRows(x, policy, n, m);
    ChildrenFit(x, k, m, m.items);
    forall c | c in keys
      ensures Domains.TakenBy(x, k, p)(c) <= AmountAmong(x, k, m.items)(c)
    {
      TakenIsChild(x, policy, n, m, k, c);
    }
    SumAtMost(keys, Domains.TakenBy(x, k, p), AmountAmong(x, k, m.items));
  }

  lemma {:induction false} SumAtMost<T(!new)>(s: set<T>, f: T -> int, g: T -> int)
    requires forall x :: x in s ==> f(x) <= g(x)
    ensures SumOver(s, f) <= SumOver(s, g)
    decreases |s|
  {
    if s != {} {
      var x :| x in s;
      SumRemove(s, f, x);
      SumRemove(s, g, x);
      SumAtMost(s - {x}, f, g);
    }
  }

  lemma ChildrenHaveTheirRows(x: Domains.Indexed, policy: Policy, n: Node, m: Node)
    requires WellShaped(n) && Holds(x, policy, n) && m in Subtree(n)
    ensures ChildrenAgree(x, m)
  {
    forall i | 0 <= i < |m.items| && m.items[i].Child? && m.items[i].node.path in x.rows
      ensures forall k: Domains.Measure ::
                Domains.Amount(x, k, m.items[i].node.path) == ColumnOf(ColumnFor(k), NodeTotals(m.items[i].node))
    {
      var child := m.items[i].node;
      var c := NodeAt(x, policy, n, child.path);
      SubtreeOfSubtree(n, m, child, i);
      SubtreePathsAreUnique(n, c, child);
    }
  }

  lemma {:induction false} SubtreeOfSubtree(n: Node, m: Node, child: Node, i: nat)
    requires WellShaped(n) && m in Subtree(n) && i < |m.items| && m.items[i].Child? && m.items[i].node == child
    ensures child in Subtree(n)
    decreases n
  {
    if m in ItemsSubtree(n.items) {
      var j := ItemsAreBelow(n, n.items, m);
      assert ShapedItem(n.path, n.depth, n.items[j]);
      SubtreeOfSubtree(n.items[j].node, m, child, i);
      ChildSubtree(n.items, j, child);
    } else {
      assert child in Subtree(child);
      ChildSubtree(n.items, i, child);
    }
  }

  lemma TakenIsChild(x: Domains.Indexed, policy: Policy, n: Node, m: Node, k: Domains.Measure, c: Bytes)
    requires WellShaped(n) && n.parentPath.None? && NonNegative(n) && Holds(x, policy, n)
    requires m.path in x.rows && m in Subtree(n) && c in x.rows
    ensures Domains.TakenBy(x, k, m.path)(c) <= AmountAmong(x, k, m.items)(c)
  {
    if Domains.Above(x, c) == Some(m.path) {
      var i := TakenFromParent(x, policy, n, m, c);
      assert ChildAmong(m.items, c);
    }
    var node := NodeAt(x, policy, n, c);
    SubtreeIsNotNegative(n, node);
    NodeIsNotNegative(k, node);
  }

  /** The indexed rows of one scan of sane sizes, under some policy. */
  ghost predicate IsScan(x: Domains.Indexed, policy: Policy, n: Node) {
    WellShaped(n) && n.parentPath.None? && NonNegative(n) && Holds(x, policy, n)
  }

  /** What the rows of a scan add to a domain is never negative. */
  lemma ScanFlowIsNotNegative(x: Domains.Indexed, policy: Policy, n: Node, m: Domains.Measure, d: Domains.DomainKey)
    requires IsScan(x, policy, n)
    ensures SumOver(x.rows.Keys, Domains.FlowInto(x, m, d)) >= 0
  {
    forall p | p in x.rows
      ensures Domains.Exclusive(x, m, p) >= 0
    {
      RowsHoldTheirChildren(x, policy, n, m, p);
    }
    Domains.TotalsAreNotNegative(x, m, d);
  }

  ghost predicate AreScans(xs: seq<Domains.Indexed>, policies: seq<Policy>, nodes: seq<Node>) {
    |xs| == |policies| == |nodes| && forall i {:trigger xs[i]} :: 0 <= i < |xs| ==> IsScan(xs[i], policies[i], nodes[i])
  }

  lemma {:induction false} ScanFlowsAreNotNegative(xs: seq<Domains.Indexed>, policies: seq<Policy>, nodes: seq<Node>,
                                                   m: Domains.Measure, d: Domains.DomainKey)
    requires AreScans(xs, policies, nodes)
    ensures Domains.FlowOfAll(xs, m, d) >= 0
    decreases |xs|
  {
    if xs != [] {
      var last := |xs| - 1;
      ScanFlowsAreNotNegative(xs[..last], policies[..last], nodes[..last], m, d);
      ScanFlowIsNotNegative(xs[last], policies[last], nodes[last], m, d);
    }
  }

  /** The totals over the rows of any number of scans, of any roots and under any policies, are never
      negative in any domain: nothing is clamped, and what is reported is what they add. */
  method ReportOfScans(xs: seq<Domains.Indexed>, ghost policies: seq<Policy>, ghost nodes: seq<Node>)
    returns (report: map<Domains.DomainKey, Domains.DomainTotal>)
    requires AreScans(xs, policies, nodes)
    ensures forall d :: d in report ==>
              report[d] == Domains.DomainTotal(Domains.FlowOfAll(xs, Domains.DiskBytes, d),
                                               Domains.FlowOfAll(xs, Domains.ApparentBytes, d), false)
    ensures forall m, d :: d !in report ==> Domains.FlowOfAll(xs, m, d) == 0
  {
    var accumulators := new Domains.DomainAccumulators();
    accumulators.AccumulateSnapshots(xs);
    report := accumulators.Report();
    forall m, d
      ensures Domains.FlowOfAll(xs, m, d) >= 0
    {
      ScanFlowsAreNotNegative(xs, policies, nodes, m, d);
    }
    ghost var totals := accumulators.totals;
    assert forall d :: d in report ==>
      Domains.Sum(totals, Domains.DiskBytes, d) == totals[d].disk &&
      Domains.Sum(totals, Domains.ApparentBytes, d) == totals[d].apparent;
  }
}
