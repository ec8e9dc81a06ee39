/** How far a scan with an explicit stack has come: the tree it will end with from where it
    is, the work that is left, and what its frames hold on the way. */
module Resume {
  import opened Models
  import opened Walk

  /** A directory on the stack, with the running totals of what was handled in it. */
  datatype Frame = Frame(
    visit: Visit,
    initialized: bool,
    totals: Totals,
    error: Option<RowError>,
    rowStart: int,
    collapseReason: Option<CollapseReason>,
    directChildDirs: int,
    top: Top,
    evidence: multiset<Kind>,
    entries: seq<Entry>,
    nextIndex: int)

  function FreshFrame(visit: Visit): Frame {
    Frame(visit, false, ZERO_TOTALS, None, 0, None, 0, NoChild, multiset{}, [], 0)
  }

  /** The effect of an entry whose directory is entered. */
  const DESCENDED := NO_EFFECT.(isDirectory := true)

  function ChainOf(stack: seq<Frame>): (chain: seq<Link>)
    ensures |chain| == |stack|
  {
    if stack == [] then [] else ChainOf(stack[..|stack| - 1]) + [LinkOf(stack[|stack| - 1].visit)]
  }

  function Rest(f: Frame): seq<Entry> {
    if 0 <= f.nextIndex <= |f.entries| then f.entries[f.nextIndex..] else []
  }

  /** The items already handled in every frame of a stack go beside it. */
  type Progress = seq<seq<Item>>

  ghost predicate Resumable(fs: FileSystem, stack: seq<Frame>, done: Progress) {
    fs.Valid() && |done| == |stack| &&
    (forall k :: 0 <= k < |stack| ==> EntriesIn(Rest(stack[k]), fs.keys)) &&
    (forall k :: 0 <= k < |stack| - 1 ==> stack[k].initialized)
  }

  /** What the top frame turns into when it is finished. */
  ghost function TopResult(s: Setup, fs: FileSystem, stack: seq<Frame>, done: Progress, seen: set<Key>): Walked
    requires Resumable(fs, stack, done) && stack != []
  {
    var last := |stack| - 1;
    var f := stack[last];
    if !f.initialized then WalkDirectory(s, fs, ChainOf(stack[..last]), f.visit, seen)
    else
      var w := WalkEntries(s, fs, ChainOf(stack), f.visit, Rest(f), seen);
      Walked(NodeOf(f.visit, Listed, done[last] + w.items), w.seen)
  }

  /** Finishes the frames below a finished child. */
  ghost function Unwind(s: Setup, fs: FileSystem, stack: seq<Frame>, done: Progress, child: Walked): Walked
    requires Resumable(fs, stack, done)
    decreases |stack|
  {
    if stack == [] then child
    else
      var last := |stack| - 1;
      var f := stack[last];
      var w := WalkEntries(s, fs, ChainOf(stack), f.visit, Rest(f), child.seen);
      var items := done[last] + [Child(DESCENDED, child.node)] + w.items;
      Unwind(s, fs, stack[..last], done[..last], Walked(NodeOf(f.visit, Listed, items), w.seen))
  }

  /** The tree that the scan ends with. */
  ghost function Outcome(s: Setup, fs: FileSystem, stack: seq<Frame>, done: Progress, seen: set<Key>): Walked
    requires Resumable(fs, stack, done) && stack != []
  {
    var last := |stack| - 1;
    Unwind(s, fs, stack[..last], done[..last], TopResult(s, fs, stack, done, seen))
  }

  // ----- the work left

  function ItemWork(item: Item): nat
    decreases item
  {
    1 + if item.Child? then NodeWork(item.node) else 0
  }

  function ItemsWork(items: seq<Item>): nat
    decreases items
  {
    if items == [] then 0 else ItemWork(items[0]) + ItemsWork(items[1..])
  }

  /** One step to open a directory, one for each entry, one to close it. */
  function NodeWork(n: Node): nat
    decreases n
  {
    2 + ItemsWork(n.items)
  }

  ghost function UnwindWork(s: Setup, fs: FileSystem, stack: seq<Frame>, done: Progress, child: Walked): nat
    requires Resumable(fs, stack, done)
    decreases |stack|
  {
    if stack == [] then 0
    else
      var last := |stack| - 1;
      var f := stack[last];
      var w := WalkEntries(s, fs, ChainOf(stack), f.visit, Rest(f), child.seen);
      var items := done[last] + [Child(DESCENDED, child.node)] + w.items;
      1 + ItemsWork(w.items) +
      UnwindWork(s, fs, stack[..last], done[..last], Walked(NodeOf(f.visit, Listed, items), w.seen))
  }

  ghost function TopWork(s: Setup, fs: FileSystem, stack: seq<Frame>, done: Progress, seen: set<Key>): nat
    requires Resumable(fs, stack, done) && stack != []
  {
    var last := |stack| - 1;
    var f := stack[last];
    if !f.initialized then NodeWork(WalkDirectory(s, fs, ChainOf(stack[..last]), f.visit, seen).node)
    else 1 + ItemsWork(WalkEntries(s, fs, ChainOf(stack), f.visit, Rest(f), seen).items)
  }

  ghost function Work(s: Setup, fs: FileSystem, stack: seq<Frame>, done: Progress, seen: set<Key>): nat
    requires Resumable(fs, stack, done)
  {
    if stack == [] then 0
    else
      var last := |stack| - 1;
      TopWork(s, fs, stack, done, seen) +
      UnwindWork(s, fs, stack[..last], done[..last], TopResult(s, fs, stack, done, seen))
  }

  // ----- steps that change neither the outcome nor anything below the top frame

  lemma ReplaceTop(stack: seq<Frame>, f: Frame)
    requires stack != [] && stack[|stack| - 1].visit == f.visit
    ensures ChainOf(stack[|stack| - 1 := f]) == ChainOf(stack)
  {
  }

  /** Opening the top directory. */
  lemma OpenStep(s: Setup, fs: FileSystem, stack: seq<Frame>, done: Progress, seen: set<Key>, f: Frame)
    requires Resumable(fs, stack, done) && stack != []
    requires !stack[|stack| - 1].initialized && done[|done| - 1] == []
    requires fs.list(stack[|stack| - 1].visit.path) == Entries(f.entries)
    requires f.initialized && f.nextIndex == 0 && f.visit == stack[|stack| - 1].visit
    ensures
      var ready := stack[|stack| - 1 := f];
      Resumable(fs, ready, done) &&
      Outcome(s, fs, ready, done, seen) == Outcome(s, fs, stack, done, seen) &&
      Work(s, fs, ready, done, seen) < Work(s, fs, stack, done, seen)
  {
    var last := |stack| - 1;
    var ready := stack[last := f];
    assert DirectoriesIn(fs.list(f.visit.path), fs.keys);
    assert Rest(f) == f.entries;
    ReplaceTop(stack, f);
    assert ready[..last] == stack[..last];
    var w := WalkEntries(s, fs, ChainOf(stack), f.visit, f.entries, seen);
    assert done[last] + w.items == w.items;
  }

  /** Closing the top directory: its node joins what its parent has done. */
  function Joined(done: Progress, child: Node): Progress
    requires |done| >= 2
  {
    done[..|done| - 2] + [done[|done| - 2] + [Child(DESCENDED, child)]]
  }

  lemma CloseStep(s: Setup, fs: FileSystem, stack: seq<Frame>, done: Progress, seen: set<Key>, child: Node)
    requires Resumable(fs, stack, done) && |stack| >= 2
    requires TopResult(s, fs, stack, done, seen) == Walked(child, seen)
    ensures
      var parents := stack[..|stack| - 1];
      Resumable(fs, parents, Joined(done, child)) &&
      Outcome(s, fs, parents, Joined(done, child), seen) == Outcome(s, fs, stack, done, seen) &&
      Work(s, fs, parents, Joined(done, child), seen) < Work(s, fs, stack, done, seen)
  {
    var parents := stack[..|stack| - 1];
    var joined := Joined(done, child);
    var last := |parents| - 1;
    assert joined[..last] == done[..|done| - 1][..last];
    assert joined[last] == done[last] + [Child(DESCENDED, child)];
    assert done[..|done| - 1][last] == done[last];
  }

  lemma ItemsWorkCons(item: Item, rest: seq<Item>)
    ensures ItemsWork([item] + rest) == ItemWork(item) + ItemsWork(rest)
  {
  }

  function Appended(done: Progress, item: Item): Progress
    requires done != []
  {
    done[|done| - 1 := done[|done| - 1] + [item]]
  }

  lemma TailEntries(es: seq<Entry>, keys: set<Key>)
    requires EntriesIn(es, keys) && es != []
    ensures EntriesIn(es[1..], keys)
  {
  }

  /** The walk of a directory after an entry that is not entered. */
  lemma WalkPast(s: Setup, fs: FileSystem, chain: seq<Link>, d: Visit, es: seq<Entry>, seen: set<Key>, item: Item,
                 left: seq<Entry>, seen': set<Key>)
    requires fs.Valid() && EntriesIn(es, fs.keys) && EntriesIn(left, fs.keys) && es != []
    requires
      var h := Handle(s, chain, d, es[0], seen);
      (h == Next(item, seen') && left == es[1..]) || (h == Abandon(item) && left == [] && seen' == seen)
    ensures
      var rest := WalkEntries(s, fs, chain, d, left, seen');
      WalkEntries(s, fs, chain, d, es, seen) == WalkedItems([item] + rest.items, rest.seen)
  {
  }

  /** The walk of a directory after an entry that is entered. */
  lemma WalkInto(s: Setup, fs: FileSystem, chain: seq<Link>, d: Visit, es: seq<Entry>, seen: set<Key>, visit: Visit)
    requires fs.Valid() && EntriesIn(es, fs.keys) && es != []
    requires Handle(s, chain, d, es[0], seen) == Descend(DESCENDED, visit)
    ensures EntriesIn(es[1..], fs.keys)
    ensures
      var child := WalkDirectory(s, fs, chain, visit, seen);
      var rest := WalkEntries(s, fs, chain, d, es[1..], child.seen);
      WalkEntries(s, fs, chain, d, es, seen) == WalkedItems([Child(DESCENDED, child.node)] + rest.items, rest.seen)
  {
  }

  /** Only the top frame's result and work matter to the outcome and the work left. */
  lemma SameBelow(s: Setup, fs: FileSystem, a: seq<Frame>, aDone: Progress, aSeen: set<Key>,
                  b: seq<Frame>, bDone: Progress, bSeen: set<Key>)
    requires Resumable(fs, a, aDone) && Resumable(fs, b, bDone) && a != [] && |a| == |b|
    requires a[..|a| - 1] == b[..|b| - 1] && aDone[..|a| - 1] == bDone[..|b| - 1]
    requires TopResult(s, fs, a, aDone, aSeen) == TopResult(s, fs, b, bDone, bSeen)
    requires TopWork(s, fs, a, aDone, aSeen) < TopWork(s, fs, b, bDone, bSeen)
    ensures Outcome(s, fs, a, aDone, aSeen) == Outcome(s, fs, b, bDone, bSeen)
    ensures Work(s, fs, a, aDone, aSeen) < Work(s, fs, b, bDone, bSeen)
  {
  }

  /** Handling an entry that is not entered, and perhaps dropping the entries after it. */
  lemma EntryStep(s: Setup, fs: FileSystem, stack: seq<Frame>, done: Progress, seen: set<Key>, f: Frame, item: Item,
                  seen': set<Key>)
    requires Resumable(fs, stack, done) && stack != []
    requires stack[|stack| - 1].initialized && f.initialized && f.visit == stack[|stack| - 1].visit
    requires EntriesIn(Rest(f), fs.keys)
    requires
      var chain := ChainOf(stack);
      var rest := WalkEntries(s, fs, chain, f.visit, Rest(f), seen');
      WalkEntries(s, fs, chain, f.visit, Rest(stack[|stack| - 1]), seen) == WalkedItems([item] + rest.items, rest.seen)
    ensures
      var handled := stack[|stack| - 1 := f];
      Resumable(fs, handled, Appended(done, item)) &&
      Outcome(s, fs, handled, Appended(done, item), seen') == Outcome(s, fs, stack, done, seen) &&
      Work(s, fs, handled, Appended(done, item), seen') < Work(s, fs, stack, done, seen)
  {
    var last := |stack| - 1;
    var handled := stack[last := f];
    ReplaceTop(stack, f);
    var rest := WalkEntries(s, fs, ChainOf(stack), f.visit, Rest(f), seen');
    assert done[last] + ([item] + rest.items) == done[last] + [item] + rest.items;
    ItemsWorkCons(item, rest.items);
    SameBelow(s, fs, handled, Appended(done, item), seen', stack, done, seen);
  }

  /** Entering a directory. */
  lemma DescendStep(s: Setup, fs: FileSystem, stack: seq<Frame>, done: Progress, seen: set<Key>, f: Frame, visit: Visit)
    requires Resumable(fs, stack, done) && stack != []
    requires stack[|stack| - 1].initialized && f.initialized && f.visit == stack[|stack| - 1].visit
    requires EntriesIn(Rest(f), fs.keys)
    requires
      var chain := ChainOf(stack);
      var child := WalkDirectory(s, fs, chain, visit, seen);
      var rest := WalkEntries(s, fs, chain, f.visit, Rest(f), child.seen);
      WalkEntries(s, fs, chain, f.visit, Rest(stack[|stack| - 1]), seen)
      == WalkedItems([Child(DESCENDED, child.node)] + rest.items, rest.seen)
    ensures
      var deeper := stack[|stack| - 1 := f] + [FreshFrame(visit)];
      Resumable(fs, deeper, done + [[]]) &&
      Outcome(s, fs, deeper, done + [[]], seen) == Outcome(s, fs, stack, done, seen) &&
      Work(s, fs, deeper, done + [[]], seen) < Work(s, fs, stack, done, seen)
  {
    var last := |stack| - 1;
    var parents := stack[last := f];
    var deeper := parents + [FreshFrame(visit)];
    ReplaceTop(stack, f);
    assert deeper[..|deeper| - 1] == parents && (done + [[]])[..|deeper| - 1] == done;
    assert parents[..last] == stack[..last];
    var child := WalkDirectory(s, fs, ChainOf(stack), visit, seen);
    var rest := WalkEntries(s, fs, ChainOf(stack), f.visit, Rest(f), child.seen);
    var item := Child(DESCENDED, child.node);
    assert done[last] + ([item] + rest.items) == done[last] + [item] + rest.items;
    ItemsWorkCons(item, rest.items);
  }
}
