/** The columns of a row that are not sums: the largest child, the first error, and the summary
    of what a collapsed row hides. */
module RowFacts {
  import opened Models
  import opened Walk
  import opened ScanShape
  import opened ScanTotals
  import opened ScanLedger

  // ----- the largest child

  function ChildDisk(item: Item): int
    requires item.Child?
  {
    NodeTotals(item.node).diskBytes
  }

  /** Item i is the first of the children with the most disk bytes. */
  predicate IsFirstLargest(items: seq<Item>, i: int) {
    0 <= i < |items| && items[i].Child? &&
    forall j {:trigger items[j]} :: 0 <= j < |items| && items[j].Child? ==>
      ChildDisk(items[j]) < ChildDisk(items[i]) || (ChildDisk(items[j]) == ChildDisk(items[i]) && i <= j)
  }

  /** top_child names the first of the children with the most disk bytes, if there is a child. */
  lemma {:induction false} TopIsFirstLargest(items: seq<Item>) returns (i: int)
    ensures TopOf(items).NoChild? ==> forall j :: 0 <= j < |items| ==> items[j].Plain?
    ensures TopOf(items).TopChild? ==>
              IsFirstLargest(items, i) && TopOf(items) == TopChild(items[i].node.path, ChildDisk(items[i]))
    decreases |items|
  {
    i := -1;
    if items != [] {
      var init, last := items[..|items| - 1], items[|items| - 1];
      i := TopIsFirstLargest(init);
      if last.Child? && (TopOf(init).NoChild? || ChildDisk(last) > TopOf(init).diskBytes) {
        forall j | 0 <= j < |items| - 1 && items[j].Child?
          ensures ChildDisk(items[j]) < ChildDisk(last)
        {
          assert init[j] == items[j];
        }
        i := |items| - 1;
      } else if TopOf(init).TopChild? {
        assert items[i] == init[i];
        forall j | 0 <= j < |items| && items[j].Child?
          ensures ChildDisk(items[j]) < ChildDisk(items[i]) || (ChildDisk(items[j]) == ChildDisk(items[i]) && i <= j)
        {
          if j < |init| {
            assert init[j] == items[j];
          }
        }
      }
    }
  }

  // ----- the first error

  /** The error of a listed directory is the message of the first of its entries that left one. */
  lemma {:induction false} ErrorIsFirstMessage(items: seq<Item>) returns (i: int)
    ensures FirstMessage(items).None? ==> forall j :: 0 <= j < |items| ==> items[j].effect.message.None?
    ensures FirstMessage(items).Some? ==>
              0 <= i < |items| && items[i].effect.message == FirstMessage(items) &&
              forall j :: 0 <= j < i ==> items[j].effect.message.None?
    decreases |items|
  {
    i := -1;
    if items != [] {
      var init := items[..|items| - 1];
      i := ErrorIsFirstMessage(init);
      if FirstMessage(init).None? {
        i := |items| - 1;
        forall j | 0 <= j < i
          ensures items[j].effect.message.None?
        {
          assert init[j] == items[j];
        }
      } else {
        assert init[i] == items[i];
        forall j | 0 <= j < i
          ensures items[j].effect.message.None?
        {
          assert init[j] == items[j];
        }
      }
    }
  }

  // ----- what a collapsed row says it hides

  /** The evidence of an entry counts its errors. */
  predicate Witnessed(item: Item)
    decreases item
  {
    item.effect.evidence == KindsOf(item.effect.errors) && (item.Child? ==> AllWitnessed(item.node.items))
  }

  predicate AllWitnessed(items: seq<Item>)
    decreases items
  {
    forall i :: 0 <= i < |items| ==> Witnessed(items[i])
  }

  lemma AllWitnessedCons(item: Item, rest: seq<Item>)
    requires Witnessed(item) && AllWitnessed(rest)
    ensures AllWitnessed([item] + rest)
  {
  }

  lemma ChildIsSkipped(s: Setup, chain: seq<Link>, d: Visit, e: Entry, seen: set<Key>)
    ensures
      var h := Handle(s, chain, d, e, seen);
      !h.Descend? && h.item.Child? ==> h.item.node.fate.Skipped? && h.item.node.items == []
  {
  }

  lemma SkippedIsWitnessed(item: Item)
    requires ItemEvidence(item) == KindsOf(ItemErrors(item))
    requires item.Child? ==> item.node.fate.Skipped? && item.node.items == []
    ensures Witnessed(item)
  {
    if item.Child? {
      assert item.effect.errors + [] == item.effect.errors;
    }
  }

  lemma HandledIsWitnessed(s: Setup, chain: seq<Link>, d: Visit, e: Entry, seen: set<Key>)
    requires s.recordSkipped
    ensures
      var h := Handle(s, chain, d, e, seen);
      if h.Descend? then KindsOf(h.effect.errors) == h.effect.evidence else Witnessed(h.item)
  {
    var h := Handle(s, chain, d, e, seen);
    if !h.Descend? {
      HandledBalances(s, chain, d, e, seen);
      ChildIsSkipped(s, chain, d, e, seen);
      SkippedIsWitnessed(h.item);
    }
  }

  lemma {:induction false} WalkIsWitnessed(s: Setup, fs: FileSystem, chain: seq<Link>, d: Visit, seen: set<Key>)
    requires fs.Valid() && s.recordSkipped
    ensures AllWitnessed(WalkDirectory(s, fs, chain, d, seen).node.items)
    decreases fs.keys - ChainKeys(chain + [LinkOf(d)]), 1, 0
  {
    if fs.list(d.path).Entries? {
      assert DirectoriesIn(fs.list(d.path), fs.keys);
      EntriesAreWitnessed(s, fs, chain + [LinkOf(d)], d, fs.list(d.path).entries, seen);
    }
  }

  lemma {:induction false} EntriesAreWitnessed(s: Setup, fs: FileSystem, chain: seq<Link>, d: Visit,
                                               entries: seq<Entry>, seen: set<Key>)
    requires fs.Valid() && s.recordSkipped && EntriesIn(entries, fs.keys)
    ensures AllWitnessed(WalkEntries(s, fs, chain, d, entries, seen).items)
    decreases fs.keys - ChainKeys(chain), 0, |entries|
  {
    if entries != [] {
      HandledIsWitnessed(s, chain, d, entries[0], seen);
      assert forall i :: 0 <= i < |entries[1..]| ==> entries[1..][i] == entries[i + 1];
      match Handle(s, chain, d, entries[0], seen)
      case Next(item, seen') =>
        EntriesAreWitnessed(s, fs, chain, d, entries[1..], seen');
        AllWitnessedCons(item, WalkEntries(s, fs, chain, d, entries[1..], seen').items);
      case Abandon(item) =>
      case Descend(effect, visit) =>
        DescendShrinks(s, fs, chain, d, entries[0], seen);
        WalkIsWitnessed(s, fs, chain, visit, seen);
        var child := WalkDirectory(s, fs, chain, visit, seen);
        EntriesAreWitnessed(s, fs, chain, d, entries[1..], child.seen);
        AllWitnessedCons(Child(effect, child.node), WalkEntries(s, fs, chain, d, entries[1..], child.seen).items);
    }
  }

  /** The evidence that a directory passes on counts, kind by kind, the errors of its whole subtree. */
  lemma {:induction false} EvidenceCountsErrors(n: Node)
    requires AllWitnessed(n.items)
    ensures NodeEvidence(n) == KindsOf(NodeErrors(n))
    decreases n, 1, 0
  {
    match n.fate
    case Listed => ItemsEvidenceCounts(n, n.items);
    case Unreadable(error) => OneKind(error);
    case Skipped(_) =>
  }

  lemma {:induction false} ItemsEvidenceCounts(n: Node, items: seq<Item>)
    requires AllWitnessed(n.items) && items <= n.items
    ensures ItemsEvidence(items) == KindsOf(ItemsErrors(items))
    decreases n, 0, |items|
  {
    if items != [] {
      var last := |items| - 1;
      ItemsEvidenceCounts(n, items[..last]);
      KindsConcat(ItemsErrors(items[..last]), ItemErrors(items[last]));
      assert Witnessed(n.items[last]);
      if items[last].Child? {
        EvidenceCountsErrors(items[last].node);
        KindsConcat(items[last].effect.errors, NodeErrors(items[last].node));
      }
    }
  }

  /** With skipped paths recorded, a collapsed row counts exactly the errors of its subtree, and the
      directories it stands for. */
  lemma CollapsedRowCounts(n: Node, reason: CollapseReason)
    requires WellShaped(n) && AllWitnessed(n.items) && NodeErrors(n) != []
    ensures CollapsedRow(n, reason).facts.error == Some(CollapsedEvidence(KindsOf(NodeErrors(n))))
    ensures CollapsedRow(n, reason).facts.collapsedDirs == Some(|Subtree(n)| - 1)
  {
    EvidenceCountsErrors(n);
    var errors := NodeErrors(n);
    assert errors[|errors| - 1].kind in KindsOf(errors);
    RowIsSumOfUses(Directories, n);
    NoDirectoriesInUses(Uses(n));
  }

  /** A collapsed row names the first of its children with the most disk bytes, if it has a child; a row
      that is not collapsed names none and says why it is incomplete, if it is. */
  lemma RowNamesTop(policy: Option<CollapsePolicy>, n: Node) returns (i: int)
    ensures
      var r := NodeRow(policy, n);
      (r.topChildPath.Some? <==> r.facts.collapsed && exists j :: 0 <= j < |n.items| && n.items[j].Child?) &&
      (r.topChildPath.Some? ==>
        IsFirstLargest(n.items, i) && r.topChildPath == Some(n.items[i].node.path) &&
        r.facts.topChildDiskBytes == Some(ChildDisk(n.items[i]))) &&
      (r.topChildPath.None? ==> r.facts.topChildDiskBytes.None?) &&
      (!r.facts.collapsed ==> r.facts.collapseReason.None? && r.facts.collapsedDirs.None?)
  {
    i := TopIsFirstLargest(n.items);
  }

  /** What went wrong at the directory itself: that it was not entered, that it could not be listed, or the
      first of its entries that failed. */
  function OwnMessage(n: Node): Option<RowError> {
    match n.fate
    case Skipped(why) => Some(why)
    case Unreadable(error) => Some(error.message)
    case Listed => FirstMessage(n.items)
  }

  /** The error of a row is the directory's own, unless the row is collapsed and there is evidence of its
      subtree to summarize. */
  lemma RowSaysWhy(policy: Option<CollapsePolicy>, n: Node)
    ensures
      var r := NodeRow(policy, n);
      r.facts.error == if r.facts.collapsed && NodeEvidence(n) != multiset{}
                       then Some(CollapsedEvidence(NodeEvidence(n))) else OwnMessage(n)
  {
  }

  lemma {:induction false} NoDirectoriesInUses(uses: seq<Use>)
    ensures SumUses(Directories, uses) == 0
    decreases |uses|
  {
    if uses != [] {
      NoDirectoriesInUses(uses[..|uses| - 1]);
    }
  }
}
