/** What the numbers of a row mean: sums over every directory and file of its subtree, with
    files of several links counted at their first name. */
module ScanTotals {
  import opened Models
  import opened Walk
  import opened ScanShape

  // ----- the columns of a row as sums over the subtree

  datatype Column = Apparent | Disk | Files | Directories | LinkNames | LinkDuplicates | DuplicateDisk | FirstSeenDisk

  function ColumnOf(c: Column, t: Totals): int {
    match c
    case Apparent => t.apparentBytes
    case Disk => t.diskBytes
    case Files => t.fileCount
    case Directories => t.dirCount
    case LinkNames => t.hardlinks.fileCount
    case LinkDuplicates => t.hardlinks.duplicateCount
    case DuplicateDisk => t.hardlinks.duplicateDiskBytes
    case FirstSeenDisk => t.hardlinks.firstSeenDiskBytes
  }

  /** What one file is worth in a column. */
  function Worth(c: Column, f: FileStat, counting: Counting): int {
    match c
    case Apparent => ApparentBytes(f)
    case Disk => if counting == SingleName || counting == FirstName then DiskBytes(f) else 0
    case Files => 1
    case Directories => 0
    case LinkNames => if counting == FirstName || counting == LaterName then 1 else 0
    case LinkDuplicates => if counting == LaterName then 1 else 0
    case DuplicateDisk => if counting == LaterName then DiskBytes(f) else 0
    case FirstSeenDisk => if counting == FirstName then DiskBytes(f) else 0
  }

  function UseWorth(c: Column, u: Use): int {
    match u
    case NoFile => 0
    case File(f, counting) => Worth(c, f, counting)
  }

  function ItemUses(item: Item): seq<Use>
    decreases item
  {
    match item
    case Plain(effect) => [effect.use]
    case Child(_, node) => Uses(node)
  }

  function ItemsUses(items: seq<Item>): seq<Use>
    decreases items
  {
    if |items| == 0 then [] else ItemsUses(items[..|items| - 1]) + ItemUses(items[|items| - 1])
  }

  /** Every entry below n that is not an entered or skipped directory, in the order of the walk. */
  function Uses(n: Node): seq<Use>
    decreases n
  {
    ItemsUses(n.items)
  }

  function SumUses(c: Column, uses: seq<Use>): int {
    if uses == [] then 0 else SumUses(c, uses[..|uses| - 1]) + UseWorth(c, uses[|uses| - 1])
  }

  function SumOwn(c: Column, nodes: seq<Node>): int {
    if nodes == [] then 0 else SumOwn(c, nodes[..|nodes| - 1]) + ColumnOf(c, nodes[|nodes| - 1].own)
  }

  lemma {:induction false} SumUsesConcat(c: Column, a: seq<Use>, b: seq<Use>)
    ensures SumUses(c, a + b) == SumUses(c, a) + SumUses(c, b)
    decreases |b|
  {
    if b == [] {
      assert a + b == a;
    } else {
      assert (a + b)[..|a + b| - 1] == a + b[..|b| - 1];
      SumUsesConcat(c, a, b[..|b| - 1]);
    }
  }

  lemma {:induction false} SumOwnConcat(c: Column, a: seq<Node>, b: seq<Node>)
    ensures SumOwn(c, a + b) == SumOwn(c, a) + SumOwn(c, b)
    decreases |b|
  {
    if b == [] {
      assert a + b == a;
    } else {
      assert (a + b)[..|a + b| - 1] == a + b[..|b| - 1];
      SumOwnConcat(c, a, b[..|b| - 1]);
    }
  }

  /** Each directory below counts once. */
  function DirectoriesAdded(c: Column, count: int): int {
    if c == Directories then count else 0
  }

  lemma AddItemColumn(c: Column, t: Totals, item: Item)
    ensures ColumnOf(c, AddItem(t, item)) ==
            match item
            case Plain(effect) => ColumnOf(c, t) + UseWorth(c, effect.use)
            case Child(_, node) => ColumnOf(c, t) + ColumnOf(c, NodeTotals(node)) + DirectoriesAdded(c, 1)
  {
  }

  /** Every column of a row is the sum over the directories of its subtree and the files in
      them. */
  lemma {:induction false} RowIsSumOfSubtree(c: Column, n: Node)
    ensures ColumnOf(c, NodeTotals(n))
            == SumOwn(c, Subtree(n)) + SumUses(c, Uses(n)) + DirectoriesAdded(c, |Subtree(n)| - 1)
    decreases n, 1, 0
  {
    ItemsAreSums(c, n, n.items);
    SumOwnConcat(c, ItemsSubtree(n.items), [n]);
    assert SumOwn(c, [n]) == SumOwn(c, []) + ColumnOf(c, n.own);
  }

  lemma {:induction false} ItemsAreSums(c: Column, n: Node, items: seq<Item>)
    requires items <= n.items
    ensures ColumnOf(c, TotalsFrom(n.own, items))
            == ColumnOf(c, n.own) + SumOwn(c, ItemsSubtree(items)) + SumUses(c, ItemsUses(items)) +
               DirectoriesAdded(c, |ItemsSubtree(items)|)
    decreases n, 0, |items|
  {
    if items != [] {
      var last := |items| - 1;
      ItemsAreSums(c, n, items[..last]);
      AddItemColumn(c, TotalsFrom(n.own, items[..last]), items[last]);
      SumOwnConcat(c, ItemsSubtree(items[..last]), ItemSubtree(items[last]));
      SumUsesConcat(c, ItemsUses(items[..last]), ItemUses(items[last]));
      if items[last].Child? {
        RowIsSumOfSubtree(c, items[last].node);
      } else {
        assert SumUses(c, [items[last].effect.use]) == SumUses(c, []) + UseWorth(c, items[last].effect.use);
      }
    }
  }

  /** Directories themselves add bytes and nothing else. */
  lemma {:induction false} SumOwnIsZero(c: Column, nodes: seq<Node>)
    requires c != Apparent && c != Disk
    requires forall m :: m in nodes ==> OwnsOnlyBytes(m.own)
    ensures SumOwn(c, nodes) == 0
    decreases |nodes|
  {
    if nodes != [] {
      SumOwnIsZero(c, nodes[..|nodes| - 1]);
    }
  }

  lemma RowIsSumOfUses(c: Column, n: Node)
    requires WellShaped(n) && c != Apparent && c != Disk
    ensures ColumnOf(c, NodeTotals(n)) == SumUses(c, Uses(n)) + DirectoriesAdded(c, |Subtree(n)| - 1)
  {
    RowIsSumOfSubtree(c, n);
    forall m | m in Subtree(n)
      ensures OwnsOnlyBytes(m.own)
    {
      SubtreeIsShaped(n, m);
    }
    SumOwnIsZero(c, Subtree(n));
  }
}
