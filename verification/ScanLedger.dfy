/** What balances at every step of a scan: recorded errors against evidence counters, counted
    names against seen inodes, and the stack against itself. */
module ScanLedger {
  import opened Models
  import opened Paths
  import opened Mounts
  import opened Walk
  import opened Resume
  import opened ScanState

  function KindsOf(errors: seq<ScanError>): multiset<Kind> {
    if errors == [] then multiset{} else KindsOf(errors[..|errors| - 1]) + multiset{errors[|errors| - 1].kind}
  }

  function StackEvidence(stack: seq<Frame>): multiset<Kind> {
    if stack == [] then multiset{} else StackEvidence(stack[..|stack| - 1]) + stack[|stack| - 1].evidence
  }

  /** Counted names of files with several links, and those that were not the first. */
  datatype Names = Names(all: int, duplicates: int)

  function StackNames(stack: seq<Frame>): Names {
    if stack == [] then Names(0, 0)
    else
      var below := StackNames(stack[..|stack| - 1]);
      var top := stack[|stack| - 1].totals.hardlinks;
      Names(below.all + top.fileCount, below.duplicates + top.duplicateCount)
  }

  /** With skipped paths recorded, the evidence counters of all frames count the errors. */
  predicate EvidenceBalances(s: Setup, v: Scan) {
    s.recordSkipped ==> StackEvidence(v.stack) == KindsOf(v.errors)
  }

  predicate WithinLimit(limit: int, seen: set<Key>) {
    |seen| <= limit || |seen| == 0
  }

  /** The seen inodes are the names counted in all frames without the duplicates. */
  predicate NamesBalance(s: Setup, v: Scan) {
    var names := StackNames(v.stack);
    names.all == v.hardlinkCount && names.all - names.duplicates == |v.seen| &&
    WithinLimit(s.hardlinkMaxEntries, v.seen)
  }

  /** No directory is on the stack twice. */
  predicate NoRepeats(v: Scan) {
    |ChainKeys(ChainOf(v.stack))| == |v.stack|
  }

  predicate Balanced(s: Setup, v: Scan) {
    EvidenceBalances(s, v) && NamesBalance(s, v) && NoRepeats(v)
  }

  // ----- one entry

  lemma {:induction false} KindsConcat(a: seq<ScanError>, b: seq<ScanError>)
    ensures KindsOf(a + b) == KindsOf(a) + KindsOf(b)
    decreases |b|
  {
    if b == [] {
      assert a + b == a;
    } else {
      assert (a + b)[..|a + b| - 1] == a + b[..|b| - 1];
      KindsConcat(a, b[..|b| - 1]);
    }
  }

  lemma OneKind(e: ScanError)
    ensures KindsOf([e]) == multiset{e.kind}
  {
  }

  /** What an item adds to the frame's link counters and to the set of seen inodes. */
  predicate ItemNamesBalance(limit: int, item: Item, seen: set<Key>, seen': set<Key>) {
    match item
    case Plain(effect) =>
      (effect.use.File? && effect.use.counting == FirstName ==> |seen'| == |seen| + 1 <= limit) &&
      (!(effect.use.File? && effect.use.counting == FirstName) ==> seen' == seen)
    case Child(_, node) => NodeTotals(node) == ZERO_TOTALS && ItemsHardlinks(node.items) == 0 && seen' == seen
  }

  lemma SkippedBalances(path: Bytes, parent: Visit, why: RowError)
    ensures
      var node := SkippedNode(path, parent, why);
      NodeTotals(node) == ZERO_TOTALS && ItemsHardlinks(node.items) == 0 && NodeErrors(node) == [] &&
      NodeEvidence(node) == multiset{}
  {
  }

  lemma FileBalances(s: Setup, path: Bytes, f: FileStat, seen: set<Key>)
    ensures
      var h := FileEntry(s, path, f, seen);
      !h.Descend? && h.item.Plain? &&
      ItemNamesBalance(s.hardlinkMaxEntries, h.item, seen, if h.Next? then h.seen else seen) &&
      ItemEvidence(h.item) == KindsOf(ItemErrors(h.item))
  {
  }

  lemma ExcludedBalances(s: Setup, d: Visit, e: Entry)
    ensures
      var item := ExcludedEntry(s, d, e);
      (s.recordSkipped ==> ItemEvidence(item) == KindsOf(ItemErrors(item))) &&
      forall seen: set<Key> :: ItemNamesBalance(s.hardlinkMaxEntries, item, seen, seen)
  {
    var path := Join(d.path, e.name);
    SkippedBalances(path, d, ExcludedByConfiguration);
    OneKind(ScanError(path, Excluded, ExcludedByConfiguration));
  }

  lemma SkippedEntryBalances(s: Setup, d: Visit, path: Bytes, reason: SkipReason, filesystemType: Option<string>)
    ensures
      var item := SkippedEntry(s, d, path, reason, filesystemType);
      (s.recordSkipped ==> ItemEvidence(item) == KindsOf(ItemErrors(item))) &&
      forall seen: set<Key> :: ItemNamesBalance(s.hardlinkMaxEntries, item, seen, seen)
  {
    SkippedBalances(path, d, NotEntered(reason));
    OneKind(ScanError(path, MountSkipped, NotEntered(reason)));
  }

  /** The item of an entry that is not entered balances by itself. */
  lemma HandledBalances(s: Setup, chain: seq<Link>, d: Visit, e: Entry, seen: set<Key>)
    requires !Handle(s, chain, d, e, seen).Descend?
    ensures
      var h := Handle(s, chain, d, e, seen);
      (s.recordSkipped ==> ItemEvidence(h.item) == KindsOf(ItemErrors(h.item))) &&
      ItemNamesBalance(s.hardlinkMaxEntries, h.item, seen, if h.Next? then h.seen else seen)
  {
    var path := Join(d.path, e.name);
    if IsExcluded(path, s.excludePaths) {
      ExcludedBalances(s, d, e);
    } else {
      match e.stat
      case StatFailed(kind, detail) => OneKind(ScanError(path, kind, SystemError(kind, detail)));
      case IsFile(f) => FileBalances(s, path, f, seen);
      case IsDirectory(stat) =>
        var mount := if s.mounts != [] then FindMount(path, s.mounts) else None;
        var decision := ShouldDescend(s, chain, d.mount, mount, stat);
        if decision.Skip? {
          SkippedEntryBalances(s, d, path, decision.reason, decision.filesystemType);
        }
    }
  }

  lemma ItemNames(limit: int, t: Totals, item: Item, seen: set<Key>, seen': set<Key>)
    requires ItemNamesBalance(limit, item, seen, seen')
    ensures
      var before, after := t.hardlinks, AddItem(t, item).hardlinks;
      after.fileCount == before.fileCount + ItemHardlinks(item) &&
      (after.fileCount - after.duplicateCount) - (before.fileCount - before.duplicateCount) == |seen'| - |seen| &&
      (WithinLimit(limit, seen) ==> WithinLimit(limit, seen'))
  {
  }

  lemma ReplacedTop(stack: seq<Frame>, f: Frame)
    requires stack != []
    ensures
      var last := |stack| - 1;
      stack[last := f][..last] == stack[..last]
  {
  }

  lemma EntryKeepsBalance(s: Setup, policy: Option<CollapsePolicy>, v: Scan, f: Frame, item: Item, seen: set<Key>)
    requires Balanced(s, v) && v.stack != [] && v.done != []
    requires FrameStep(policy, v.stack[|v.stack| - 1], f, item)
    requires s.recordSkipped ==> ItemEvidence(item) == KindsOf(ItemErrors(item))
    requires ItemNamesBalance(s.hardlinkMaxEntries, item, v.seen, seen)
    ensures Balanced(s, AfterEntry(policy, v, f, item, seen))
  {
    ReplacedTop(v.stack, f);
    ReplaceTop(v.stack, f);
    KindsConcat(v.errors, ItemErrors(item));
    ItemNames(s.hardlinkMaxEntries, v.stack[|v.stack| - 1].totals, item, v.seen, seen);
  }

  // ----- entering, opening and closing

  lemma DescendedChain(stack: seq<Frame>, f: Frame, visit: Visit)
    requires stack != [] && f.visit == stack[|stack| - 1].visit
    requires |ChainKeys(ChainOf(stack))| == |stack| && visit.stat.key !in ChainKeys(ChainOf(stack))
    ensures
      var deeper := stack[|stack| - 1 := f] + [FreshFrame(visit)];
      |ChainKeys(ChainOf(deeper))| == |deeper|
  {
    var parents := stack[|stack| - 1 := f];
    var deeper := parents + [FreshFrame(visit)];
    ReplaceTop(stack, f);
    assert deeper[..|parents|] == parents;
    assert ChainKeys(ChainOf(deeper)) == ChainKeys(ChainOf(stack)) + {visit.stat.key};
  }

  lemma DescendedCounters(stack: seq<Frame>, f: Frame, visit: Visit)
    requires stack != []
    requires
      var top := stack[|stack| - 1];
      f.evidence == top.evidence && f.totals.hardlinks == top.totals.hardlinks
    ensures
      var deeper := stack[|stack| - 1 := f] + [FreshFrame(visit)];
      StackEvidence(deeper) == StackEvidence(stack) && StackNames(deeper) == StackNames(stack)
  {
    var parents := stack[|stack| - 1 := f];
    ReplacedTop(stack, f);
    assert (parents + [FreshFrame(visit)])[..|parents|] == parents;
  }

  lemma DescendKeepsBalance(s: Setup, policy: Option<CollapsePolicy>, v: Scan, f: Frame, visit: Visit)
    requires Balanced(s, v) && v.stack != [] && v.done != []
    requires FrameStep(policy, v.stack[|v.stack| - 1], f, ENTERED)
    requires visit.stat.key !in ChainKeys(ChainOf(v.stack))
    ensures Balanced(s, AfterDescend(v, f, visit))
  {
    DescendedChain(v.stack, f, visit);
    DescendedCounters(v.stack, f, visit);
  }

  lemma OpenKeepsBalance(s: Setup, v: Scan, f: Frame)
    requires Balanced(s, v) && v.stack != []
    requires
      var top := v.stack[|v.stack| - 1];
      f.visit == top.visit && f.evidence == top.evidence && f.totals.hardlinks == top.totals.hardlinks
    ensures Balanced(s, v.(stack := v.stack[|v.stack| - 1 := f]))
  {
  }

  lemma {:induction false} PoppedChain(stack: seq<Frame>)
    requires stack != [] && |ChainKeys(ChainOf(stack))| == |stack|
    ensures |ChainKeys(ChainOf(stack[..|stack| - 1]))| == |stack| - 1
  {
    var below := ChainKeys(ChainOf(stack[..|stack| - 1]));
    var key := stack[|stack| - 1].visit.stat.key;
    assert ChainKeys(ChainOf(stack)) == below + {key};
    KeysFit(ChainOf(stack[..|stack| - 1]));
  }

  lemma {:induction false} KeysFit(chain: seq<Link>)
    ensures |ChainKeys(chain)| <= |chain|
    decreases |chain|
  {
    if chain == [] {
      assert ChainKeys(chain) == {};
    } else {
      var init, last := chain[..|chain| - 1], chain[|chain| - 1];
      KeysFit(init);
      assert chain == init + [last];
      assert ChainKeys(chain) == ChainKeys(init) + {last.key};
    }
  }

  /** The directory that is closed carries what its frame counted. */
  predicate ClosesTop(v: Scan, node: Node)
    requires v.stack != []
  {
    var f := v.stack[|v.stack| - 1];
    NodeEvidence(node) == f.evidence + KindsOf(OwnErrors(node)) && NodeTotals(node).hardlinks == f.totals.hardlinks
  }

  /** The counters of a closed frame move to the frame below. */
  lemma MergedCounters(v: Scan, node: Node)
    requires |v.stack| >= 2 && ClosesTop(v, node)
    ensures StackNames(PoppedStack(v.stack, node)) == StackNames(v.stack)
    ensures StackEvidence(PoppedStack(v.stack, node)) == StackEvidence(v.stack) + KindsOf(OwnErrors(node))
  {
    var parents := v.stack[..|v.stack| - 1];
    ReplacedTop(parents, Merged(parents[|parents| - 1], node));
  }

  lemma MergedChain(v: Scan, node: Node)
    requires |v.stack| >= 2
    ensures ChainOf(PoppedStack(v.stack, node)) == ChainOf(v.stack[..|v.stack| - 1])
  {
    var parents := v.stack[..|v.stack| - 1];
    ReplaceTop(parents, Merged(parents[|parents| - 1], node));
  }

  lemma CloseKeepsBalance(s: Setup, v: Scan, rows: seq<DirectoryAggregate>, node: Node)
    requires Balanced(s, v) && |v.stack| >= 2 && |v.done| >= 2 && ClosesTop(v, node)
    ensures Balanced(s, Popped(v, rows, node))
  {
    KindsConcat(v.errors, OwnErrors(node));
    PoppedChain(v.stack);
    MergedCounters(v, node);
    MergedChain(v, node);
  }

  /** One entry keeps everything balanced, and never enters a directory that is on the stack. */
  lemma HandledKeepsBalance(s: Setup, policy: Option<CollapsePolicy>, v: Scan, w: Scan)
    requires Balanced(s, v) && v.stack != [] && v.done != [] && HasEntry(v.stack[|v.stack| - 1])
    requires EntryHandled(policy, v, w, HandleTop(s, v))
    ensures Balanced(s, w)
  {
    var top := v.stack[|v.stack| - 1];
    var f := w.stack[|v.stack| - 1];
    var h := HandleTop(s, v);
    if h.Descend? {
      DescendKeepsBalance(s, policy, v, f, h.visit);
    } else {
      HandledBalances(s, ChainOf(v.stack), top.visit, top.entries[top.nextIndex], v.seen);
      EntryKeepsBalance(s, policy, v, f, h.item, if h.Next? then h.seen else v.seen);
    }
  }

  // ----- the row marks of the frames

  lemma {:induction false} PendingConcat(policy: Option<CollapsePolicy>, a: Progress, b: Progress)
    ensures PendingRows(policy, a + b) == PendingRows(policy, a) + PendingRows(policy, b)
    decreases |b|
  {
    if b == [] {
      assert a + b == a;
    } else {
      assert (a + b)[..|a + b| - 1] == a + b[..|b| - 1];
      PendingConcat(policy, a, b[..|b| - 1]);
    }
  }

  lemma {:induction false} MarkOfParent(policy: Option<CollapsePolicy>, stack: seq<Frame>, done: Progress, k: nat)
    requires ParentsHold(policy, stack, done) && k < |stack|
    ensures stack[k].rowStart == |PendingRows(policy, done[..k])|
    decreases |stack|
  {
    var last := |stack| - 1;
    if k < last {
      MarkOfParent(policy, stack[..last], done[..last], k);
      assert done[..last][..k] == done[..k];
    }
  }

  /** The mark of a frame is the number of rows that were there before it. */
  lemma MarkOf(policy: Option<CollapsePolicy>, v: Scan, k: nat)
    requires StackHolds(policy, v.stack, v.done) && k < |v.stack| && v.stack[k].initialized
    ensures v.stack[k].rowStart == |PendingRows(policy, v.done[..k])|
  {
    var last := |v.stack| - 1;
    if k < last {
      MarkOfParent(policy, v.stack[..last], v.done[..last], k);
      assert v.done[..last][..k] == v.done[..k];
    }
  }

  /** What a collapsing directory deletes: the rows from the mark of its frame on are exactly those
      of the finished items of this frame and of the frames above it, its strict descendants. */
  lemma RowsSinceMark(policy: Option<CollapsePolicy>, v: Scan, k: nat)
    requires Collected(policy, v) && StackHolds(policy, v.stack, v.done) && k < |v.stack| && v.stack[k].initialized
    ensures 0 <= v.stack[k].rowStart <= |v.rows|
    ensures v.rows[v.stack[k].rowStart..] == PendingRows(policy, v.done[k..])
  {
    MarkOf(policy, v, k);
    assert v.done == v.done[..k] + v.done[k..];
    PendingConcat(policy, v.done[..k], v.done[k..]);
  }
}
