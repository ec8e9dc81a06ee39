/** The shape of a visited tree, and what it means for the rows of a scan: post-order, every
    path once, every parent present. */
module ScanShape {
  import opened Models
  import opened Paths
  import opened Walk

  /** Names as a directory listing gives them: no slash, none twice. */
  ghost predicate ListsNames(fs: FileSystem) {
    forall path: Bytes :: fs.list(path).Entries? ==> DistinctNames(fs.list(path).entries)
  }

  predicate DistinctNames(entries: seq<Entry>) {
    (forall i :: 0 <= i < |entries| ==> ValidName(entries[i].name)) &&
    (forall i, j :: 0 <= i < j < |entries| ==> entries[i].name != entries[j].name)
  }

  /** A child row hangs below the row of its directory. */
  predicate Fits(path: Bytes, depth: int, child: Node) {
    ParentOf(child.path) == Some(path) && child.parentPath == Some(path) && child.depth == depth + 1
  }

  predicate ShapedItem(path: Bytes, depth: int, item: Item)
    decreases item
  {
    item.Child? ==> Fits(path, depth, item.node) && WellShaped(item.node)
  }

  predicate OwnsOnlyBytes(t: Totals) {
    t.fileCount == 0 && t.dirCount == 0 && t.hardlinks == NO_HARDLINKS
  }

  predicate WellShaped(n: Node)
    decreases n
  {
    Canonical(n.path) && (n.fate.Listed? || n.items == []) && OwnsOnlyBytes(n.own) &&
    (forall i :: 0 <= i < |n.items| ==> ShapedItem(n.path, n.depth, n.items[i])) &&
    (forall i, j :: 0 <= i < j < |n.items| && n.items[i].Child? && n.items[j].Child? ==>
      n.items[i].node.path != n.items[j].node.path)
  }

  /** The items of a directory are those of a prefix of its entries, in the same order. */
  predicate ItemsMatch(d: Visit, entries: seq<Entry>, items: seq<Item>) {
    |items| <= |entries| &&
    forall i :: 0 <= i < |items| ==>
      ShapedItem(d.path, d.depth, items[i]) &&
      (items[i].Child? ==> items[i].node.path == Join(d.path, entries[i].name))
  }

  lemma ItemsMatchCons(d: Visit, entries: seq<Entry>, item: Item, rest: seq<Item>)
    requires entries != [] && ItemsMatch(d, entries[1..], rest)
    requires ShapedItem(d.path, d.depth, item) && (item.Child? ==> item.node.path == Join(d.path, entries[0].name))
    ensures ItemsMatch(d, entries, [item] + rest)
  {
    var items := [item] + rest;
    forall i | 0 <= i < |items|
      ensures ShapedItem(d.path, d.depth, items[i])
      ensures items[i].Child? ==> items[i].node.path == Join(d.path, entries[i].name)
    {
      if i > 0 {
        assert items[i] == rest[i - 1] && entries[i] == entries[1..][i - 1];
      }
    }
  }

  lemma HandledIsShaped(s: Setup, chain: seq<Link>, d: Visit, e: Entry, seen: set<Key>)
    requires Canonical(d.path) && ValidName(e.name)
    ensures
      match Handle(s, chain, d, e, seen)
      case Next(item, _) =>
        ShapedItem(d.path, d.depth, item) && (item.Child? ==> item.node.path == Join(d.path, e.name))
      case Abandon(item) => item.Plain?
      case Descend(_, visit) =>
        visit.path == Join(d.path, e.name) && visit.parentPath == Some(d.path) && visit.depth == d.depth + 1
  {
    JoinParent(d.path, e.name);
  }

  lemma {:induction false} WalkIsShaped(s: Setup, fs: FileSystem, chain: seq<Link>, d: Visit, seen: set<Key>)
    requires fs.Valid() && ListsNames(fs) && Canonical(d.path)
    ensures WellShaped(WalkDirectory(s, fs, chain, d, seen).node)
    decreases fs.keys - ChainKeys(chain + [LinkOf(d)]), 1, 0
  {
    if fs.list(d.path).Entries? {
      var entries := fs.list(d.path).entries;
      assert DirectoriesIn(fs.list(d.path), fs.keys);
      WalkItemsMatch(s, fs, chain + [LinkOf(d)], d, entries, seen);
      var items := WalkEntries(s, fs, chain + [LinkOf(d)], d, entries, seen).items;
      forall i, j | 0 <= i < j < |items| && items[i].Child? && items[j].Child?
        ensures items[i].node.path != items[j].node.path
      {
        if items[i].node.path == items[j].node.path {
          JoinIsInjective(d.path, entries[i].name, entries[j].name);
        }
      }
    }
  }

  lemma {:induction false} WalkItemsMatch(s: Setup, fs: FileSystem, chain: seq<Link>, d: Visit, entries: seq<Entry>,
                                          seen: set<Key>)
    requires fs.Valid() && ListsNames(fs) && Canonical(d.path)
    requires EntriesIn(entries, fs.keys) && DistinctNames(entries)
    ensures ItemsMatch(d, entries, WalkEntries(s, fs, chain, d, entries, seen).items)
    decreases fs.keys - ChainKeys(chain), 0, |entries|
  {
    if entries != [] {
      HandledIsShaped(s, chain, d, entries[0], seen);
      TailIsDistinct(entries, fs.keys);
      match Handle(s, chain, d, entries[0], seen)
      case Next(item, seen') =>
        WalkItemsMatch(s, fs, chain, d, entries[1..], seen');
        ItemsMatchCons(d, entries, item, WalkEntries(s, fs, chain, d, entries[1..], seen').items);
      case Abandon(item) =>
      case Descend(effect, visit) =>
        DescendShrinks(s, fs, chain, d, entries[0], seen);
        JoinParent(d.path, entries[0].name);
        WalkIsShaped(s, fs, chain, visit, seen);
        var child := WalkDirectory(s, fs, chain, visit, seen);
        WalkItemsMatch(s, fs, chain, d, entries[1..], child.seen);
        ItemsMatchCons(d, entries, Child(effect, child.node),
                       WalkEntries(s, fs, chain, d, entries[1..], child.seen).items);
    }
  }

  lemma TailIsDistinct(entries: seq<Entry>, keys: set<Key>)
    requires EntriesIn(entries, keys) && DistinctNames(entries) && entries != []
    ensures EntriesIn(entries[1..], keys) && DistinctNames(entries[1..])
  {
  }

  // ----- all directories of a tree

  function ItemSubtree(item: Item): seq<Node>
    decreases item
  {
    match item
    case Plain(_) => []
    case Child(_, node) => Subtree(node)
  }

  function ItemsSubtree(items: seq<Item>): seq<Node>
    decreases items
  {
    if |items| == 0 then [] else ItemsSubtree(items[..|items| - 1]) + ItemSubtree(items[|items| - 1])
  }

  /** Every directory below and including n, in the order in which they are closed. */
  function Subtree(n: Node): seq<Node>
    decreases n
  {
    ItemsSubtree(n.items) + [n]
  }

  lemma {:induction false} SubtreeCons(item: Item, rest: seq<Item>)
    ensures ItemsSubtree([item] + rest) == ItemSubtree(item) + ItemsSubtree(rest)
    decreases |rest|
  {
    if rest == [] {
      assert [item] + rest == [item];
      assert ItemsSubtree([item]) == [] + ItemSubtree(item);
    } else {
      assert ([item] + rest)[..|rest|] == [item] + rest[..|rest| - 1];
      SubtreeCons(item, rest[..|rest| - 1]);
    }
  }

  predicate AtOrBelow(path: Bytes, a: Bytes) {
    path == a || IsBelow(path, a)
  }

  lemma AtOrBelowIsTransitive(path: Bytes, middle: Bytes, a: Bytes)
    requires AtOrBelow(path, middle) && AtOrBelow(middle, a)
    ensures AtOrBelow(path, a)
    ensures middle != a || path != middle ==> IsBelow(path, a)
  {
    if path != middle && middle != a {
      BelowIsTransitive(path, middle, a);
    }
  }

  lemma BelowIsLonger(path: Bytes, a: Bytes)
    ensures IsBelow(path, a) ==> |a| < |path|
  {
  }

  /** The child of a directory through which a path below it goes. */
  predicate Through(items: seq<Item>, path: Bytes, i: int) {
    0 <= i < |items| && items[i].Child? && AtOrBelow(path, items[i].node.path)
  }

  lemma {:induction false} SubtreeIsBelow(n: Node, m: Node)
    requires WellShaped(n) && m in Subtree(n)
    ensures AtOrBelow(m.path, n.path)
    ensures m in ItemsSubtree(n.items) ==> IsBelow(m.path, n.path)
    decreases n, 1, 0
  {
    if m in ItemsSubtree(n.items) {
      var i := ItemsAreBelow(n, n.items, m);
      assert ShapedItem(n.path, n.depth, n.items[i]);
      AtOrBelowIsTransitive(m.path, n.items[i].node.path, n.path);
    }
  }

  lemma {:induction false} ItemsAreBelow(n: Node, items: seq<Item>, m: Node) returns (i: int)
    requires WellShaped(n) && items <= n.items && m in ItemsSubtree(items)
    ensures Through(items, m.path, i) && m in Subtree(items[i].node)
    decreases n, 0, |items|
  {
    var last := |items| - 1;
    if m in ItemsSubtree(items[..last]) {
      i := ItemsAreBelow(n, items[..last], m);
    } else {
      i := last;
      assert ShapedItem(n.path, n.depth, n.items[last]);
      SubtreeIsBelow(items[last].node, m);
    }
  }

  /** No path is below two children of a directory, and none of them is below the other. */
  lemma ChildrenAreApart(n: Node, path: Bytes, i: int, j: int)
    requires WellShaped(n) && Through(n.items, path, i) && Through(n.items, path, j)
    ensures i == j
  {
    var a, b := n.items[i].node, n.items[j].node;
    assert ShapedItem(n.path, n.depth, n.items[i]) && ShapedItem(n.path, n.depth, n.items[j]);
    if path != a.path && path != b.path {
      AncestorsAreComparable(path, a.path, b.path);
    }
    SiblingsAreApart(n.path, a.path, b.path);
    SiblingsAreApart(n.path, b.path, a.path);
  }

  lemma SiblingsAreApart(parent: Bytes, a: Bytes, b: Bytes)
    requires ParentOf(a) == Some(parent) && ParentOf(b) == Some(parent)
    ensures !IsBelow(a, b)
  {
  }

  /** Later directories are neither equal to nor below earlier ones. */
  predicate PostOrder(nodes: seq<Node>) {
    forall i, j :: 0 <= i < j < |nodes| ==> !AtOrBelow(nodes[j].path, nodes[i].path)
  }

  lemma PostOrderConcat(a: seq<Node>, b: seq<Node>)
    requires PostOrder(a) && PostOrder(b)
    requires forall x, y :: x in a && y in b ==> !AtOrBelow(y.path, x.path)
    ensures PostOrder(a + b)
  {
  }

  /** Children are closed before their parent, and no directory is closed twice. */
  lemma {:induction false} SubtreeIsPostOrder(n: Node)
    requires WellShaped(n)
    ensures PostOrder(Subtree(n))
    decreases n, 1, 0
  {
    ItemsArePostOrder(n, n.items);
    forall x, y | x in ItemsSubtree(n.items) && y in [n]
      ensures !AtOrBelow(y.path, x.path)
    {
      SubtreeIsBelow(n, x);
      BelowIsLonger(n.path, x.path);
      BelowIsLonger(x.path, n.path);
    }
    PostOrderConcat(ItemsSubtree(n.items), [n]);
  }

  lemma {:induction false} ItemsArePostOrder(n: Node, items: seq<Item>)
    requires WellShaped(n) && items <= n.items
    ensures PostOrder(ItemsSubtree(items))
    decreases n, 0, |items|
  {
    if items != [] {
      var last := |items| - 1;
      var init := items[..last];
      ItemsArePostOrder(n, init);
      assert ShapedItem(n.path, n.depth, n.items[last]);
      if items[last].Child? {
        SubtreeIsPostOrder(items[last].node);
        forall x, y | x in ItemsSubtree(init) && y in Subtree(items[last].node)
          ensures !AtOrBelow(y.path, x.path)
        {
          EarlierChildIsApart(n, items, x, y);
        }
        PostOrderConcat(ItemsSubtree(init), Subtree(items[last].node));
      }
    }
  }

  lemma EarlierChildIsApart(n: Node, items: seq<Item>, x: Node, y: Node)
    requires WellShaped(n) && items <= n.items && items != [] && items[|items| - 1].Child?
    requires x in ItemsSubtree(items[..|items| - 1]) && y in Subtree(items[|items| - 1].node)
    ensures !AtOrBelow(y.path, x.path)
  {
    var last := |items| - 1;
    var i := ItemsAreBelow(n, items[..last], x);
    assert ShapedItem(n.path, n.depth, n.items[last]);
    SubtreeIsBelow(items[last].node, y);
    if AtOrBelow(y.path, x.path) {
      AtOrBelowIsTransitive(y.path, x.path, items[i].node.path);
      assert Through(n.items, y.path, i) && Through(n.items, y.path, last);
      ChildrenAreApart(n, y.path, i, last);
    }
  }

  lemma {:induction false} SubtreeIsShaped(n: Node, m: Node)
    requires WellShaped(n) && m in Subtree(n)
    ensures WellShaped(m)
    decreases n
  {
    if m in ItemsSubtree(n.items) {
      var i := ItemsAreBelow(n, n.items, m);
      assert ShapedItem(n.path, n.depth, n.items[i]);
      SubtreeIsShaped(n.items[i].node, m);
    }
  }

  /** Subtrees of children are part of the subtree. */
  lemma {:induction false} ChildSubtree(items: seq<Item>, i: int, m: Node)
    requires 0 <= i < |items| && items[i].Child? && m in Subtree(items[i].node)
    ensures m in ItemsSubtree(items)
    decreases |items|
  {
    if i < |items| - 1 {
      ChildSubtree(items[..|items| - 1], i, m);
    }
  }

  /** Every directory but the first is an entry of its parent, one level up in the tree. */
  lemma {:induction false} ParentIsVisited(n: Node, m: Node) returns (parent: Node, i: nat)
    requires WellShaped(n) && m in ItemsSubtree(n.items)
    ensures parent in Subtree(n) && Fits(parent.path, parent.depth, m)
    ensures i < |parent.items| && parent.items[i].Child? && parent.items[i].node == m
    decreases n
  {
    var j := ItemsAreBelow(n, n.items, m);
    var child := n.items[j].node;
    assert ShapedItem(n.path, n.depth, n.items[j]);
    if m in ItemsSubtree(child.items) {
      parent, i := ParentIsVisited(child, m);
      ChildSubtree(n.items, j, parent);
    } else {
      parent, i := n, j;
    }
  }
}
