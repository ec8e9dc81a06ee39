/** Every directory of a visited tree, and every item in it, in terms of what the file system lists. */
module Places {
  import opened Models
  import opened Mounts
  import opened Walk
  import opened ScanShape

  /** Where the walk was when it came to a directory. */
  datatype Place = Place(chain: seq<Link>, visit: Visit, seen: set<Key>)

  function NodeAtPlace(s: Setup, fs: FileSystem, p: Place): Node
    requires fs.Valid()
  {
    WalkDirectory(s, fs, p.chain, p.visit, p.seen).node
  }

  // ----- mounts on the way down

  predicate AreSame(a: Option<Mount>, b: Option<Mount>) {
    a.Some? && b.Some? && a.value.mountId == b.value.mountId && HaveSameOrigin(a, b)
  }

  predicate HaveSameOrigin(a: Option<Mount>, b: Option<Mount>) {
    a.Some? && b.Some? && a.value.majorMinor == b.value.majorMinor && a.value.root == b.value.root &&
    a.value.mountPoint == b.value.mountPoint
  }

  /** The same id, or the same device, root and mount point. */
  predicate AreAlike(a: Option<Mount>, b: Option<Mount>) {
    a.Some? && b.Some? && (a.value.mountId == b.value.mountId || HaveSameOrigin(a, b))
  }

  /** The way down never comes back to a mount that it left: between two directories on mounts that are
      alike all are on the same one. */
  predicate NeverReturns(chain: seq<Link>) {
    forall i, j, k {:trigger chain[i], chain[j], chain[k]} ::
      0 <= i <= k <= j < |chain| && AreAlike(chain[i].mount, chain[j].mount) ==> AreSame(chain[i].mount, chain[k].mount)
  }

  lemma EnteredMount(s: Setup, chain: seq<Link>, d: Visit, e: Entry, seen: set<Key>, i: nat)
    requires i < |chain| && Handle(s, chain, d, e, seen).Descend?
    ensures
      var mount := Handle(s, chain, d, e, seen).visit.mount;
      AreAlike(chain[i].mount, mount) ==> AreSame(d.mount, mount)
  {
  }

  lemma EnteringNeverReturns(s: Setup, chain: seq<Link>, d: Visit, e: Entry, seen: set<Key>)
    requires NeverReturns(chain) && chain != [] && chain[|chain| - 1] == LinkOf(d)
    requires Handle(s, chain, d, e, seen).Descend?
    ensures NeverReturns(chain + [LinkOf(Handle(s, chain, d, e, seen).visit)])
  {
    var link := LinkOf(Handle(s, chain, d, e, seen).visit);
    var longer, last := chain + [link], |chain| - 1;
    forall i, j, k | 0 <= i <= k <= j < |longer| && AreAlike(longer[i].mount, longer[j].mount)
      ensures AreSame(longer[i].mount, longer[k].mount)
    {
      if j < |chain| {
        assert AreSame(chain[i].mount, chain[k].mount);
      } else if i < |chain| {
        EnteredMount(s, chain, d, e, seen, i);
        assert AreAlike(chain[i].mount, chain[last].mount);
        assert AreSame(chain[i].mount, chain[last].mount);
        if k < |chain| {
          assert AreSame(chain[i].mount, chain[k].mount);
        }
      }
    }
  }

  lemma TailIsIn(entries: seq<Entry>, keys: set<Key>)
    requires EntriesIn(entries, keys) && entries != []
    ensures EntriesIn(entries[1..], keys)
  {
    assert forall i :: 0 <= i < |entries[1..]| ==> entries[1..][i] == entries[i + 1];
  }

  /** The item is what became of the entry, with these inodes seen before it. */
  predicate Answers(s: Setup, fs: FileSystem, chain: seq<Link>, d: Visit, e: Entry, at: set<Key>, item: Item)
    requires fs.Valid()
  {
    match Handle(s, chain, d, e, at)
    case Next(next, _) => item == next
    case Abandon(last) => item == last
    case Descend(effect, visit) => item == Child(effect, WalkDirectory(s, fs, chain, visit, at).node)
  }

  /** What the walk has seen after the first entry, when it goes on. */
  function SeenNext(s: Setup, fs: FileSystem, chain: seq<Link>, d: Visit, e: Entry, seen: set<Key>): set<Key>
    requires fs.Valid() && !Handle(s, chain, d, e, seen).Abandon?
  {
    var h := Handle(s, chain, d, e, seen);
    if h.Next? then h.seen else WalkDirectory(s, fs, chain, h.visit, seen).seen
  }

  lemma FirstItem(s: Setup, fs: FileSystem, chain: seq<Link>, d: Visit, entries: seq<Entry>, seen: set<Key>)
    requires fs.Valid() && EntriesIn(entries, fs.keys) && entries != [] && EntriesIn(entries[1..], fs.keys)
    ensures
      var items := WalkEntries(s, fs, chain, d, entries, seen).items;
      items != [] && Answers(s, fs, chain, d, entries[0], seen, items[0]) &&
      if Handle(s, chain, d, entries[0], seen).Abandon? then |items| == 1
      else
        var next := SeenNext(s, fs, chain, d, entries[0], seen);
        items[1..] == WalkEntries(s, fs, chain, d, entries[1..], next).items
  {
    if Handle(s, chain, d, entries[0], seen).Descend? {
      DescendShrinks(s, fs, chain, d, entries[0], seen);
    }
  }

  /** The items of a directory answer its entries one by one; only one that gives up the directory is
      followed by entries that are not handled. */
  lemma {:induction false} ItemAnswersEntry(s: Setup, fs: FileSystem, chain: seq<Link>, d: Visit, entries: seq<Entry>,
                                            seen: set<Key>, i: nat) returns (at: set<Key>)
    requires fs.Valid() && EntriesIn(entries, fs.keys) && i < |WalkEntries(s, fs, chain, d, entries, seen).items|
    ensures
      var items := WalkEntries(s, fs, chain, d, entries, seen).items;
      i < |entries| && Answers(s, fs, chain, d, entries[i], at, items[i])
    decreases |entries|
  {
    var items := WalkEntries(s, fs, chain, d, entries, seen).items;
    TailIsIn(entries, fs.keys);
    FirstItem(s, fs, chain, d, entries, seen);
    at := seen;
    if i > 0 {
      at := ItemAnswersEntry(s, fs, chain, d, entries[1..], SeenNext(s, fs, chain, d, entries[0], seen), i - 1);
      assert items[i] == items[1..][i - 1] && entries[1..][i - 1] == entries[i];
    }
  }

  /** The last item gave up the directory at the limit of inodes. */
  predicate GaveUp(items: seq<Item>) {
    items != [] && items[|items| - 1].effect.use.File? && items[|items| - 1].effect.use.counting == PastLimit
  }

  lemma GaveUpLater(items: seq<Item>)
    requires items != [] && GaveUp(items[1..])
    ensures GaveUp(items)
  {
    assert items[|items| - 1] == items[1..][|items| - 2];
  }

  lemma AbandonedGaveUp(s: Setup, chain: seq<Link>, d: Visit, e: Entry, seen: set<Key>)
    ensures Handle(s, chain, d, e, seen).Abandon? ==> GaveUp([Handle(s, chain, d, e, seen).item])
  {
  }

  /** All entries are handled, unless the last item gave up the directory. */
  lemma {:induction false} AllHandled(s: Setup, fs: FileSystem, chain: seq<Link>, d: Visit, entries: seq<Entry>,
                                      seen: set<Key>)
    requires fs.Valid() && EntriesIn(entries, fs.keys)
    ensures
      var items := WalkEntries(s, fs, chain, d, entries, seen).items;
      |items| <= |entries| && (|items| < |entries| ==> GaveUp(items))
    decreases |entries|
  {
    if entries != [] {
      var items := WalkEntries(s, fs, chain, d, entries, seen).items;
      TailIsIn(entries, fs.keys);
      FirstItem(s, fs, chain, d, entries, seen);
      if Handle(s, chain, d, entries[0], seen).Abandon? {
        AbandonedGaveUp(s, chain, d, entries[0], seen);
        assert items == [items[0]];
      } else {
        AllHandled(s, fs, chain, d, entries[1..], SeenNext(s, fs, chain, d, entries[0], seen));
        if GaveUp(items[1..]) {
          GaveUpLater(items);
        }
      }
    }
  }

  // ----- directories

  lemma {:induction false} SubtreeIndex(items: seq<Item>, m: Node) returns (i: nat)
    requires m in ItemsSubtree(items)
    ensures i < |items| && m in ItemSubtree(items[i])
    decreases |items|
  {
    i := |items| - 1;
    if m !in ItemSubtree(items[i]) {
      i := SubtreeIndex(items[..i], m);
    }
  }

  lemma SkippedSubtree(s: Setup, chain: seq<Link>, d: Visit, e: Entry, seen: set<Key>, m: Node)
    requires !Handle(s, chain, d, e, seen).Descend? && m in ItemSubtree(Handle(s, chain, d, e, seen).item)
    ensures m.fate.Skipped? && m.items == [] && m.own == ZERO_TOTALS
  {
    var node := Handle(s, chain, d, e, seen).item.node;
    assert node.items == [] && Subtree(node) == [] + [node];
  }

  /** A directory of the tree that was entered is the tree of a walk from some place, and no path below
      the root that was entered is excluded, and the way to it never comes back to a mount that it left;
      a directory that was not entered is empty. */
  lemma {:induction false} PlaceOf(s: Setup, fs: FileSystem, chain: seq<Link>, d: Visit, seen: set<Key>, m: Node)
    returns (p: Place)
    requires fs.Valid() && m in Subtree(WalkDirectory(s, fs, chain, d, seen).node)
    requires NeverReturns(chain + [LinkOf(d)])
    ensures m.fate.Skipped? ==> m.items == [] && m.own == ZERO_TOTALS
    ensures !m.fate.Skipped? ==>
              m == NodeAtPlace(s, fs, p) && (p.visit == d || !IsExcluded(p.visit.path, s.excludePaths)) &&
              NeverReturns(p.chain + [LinkOf(p.visit)])
    decreases fs.keys - ChainKeys(chain + [LinkOf(d)])
  {
    p := Place(chain, d, seen);
    if m in ItemsSubtree(NodeAtPlace(s, fs, p).items) {
      var below := chain + [LinkOf(d)];
      var e, at := EntryAbove(s, fs, p, m);
      var h := Handle(s, below, d, e, at);
      if h.Descend? {
        DescendShrinks(s, fs, below, d, e, at);
        EnteringNeverReturns(s, below, d, e, at);
        p := PlaceOf(s, fs, below, h.visit, at, m);
      } else {
        SkippedSubtree(s, below, d, e, at, m);
      }
    }
  }

  /** The entry of a directory through which the walk came to a directory below. */
  lemma EntryAbove(s: Setup, fs: FileSystem, p: Place, m: Node) returns (e: Entry, at: set<Key>)
    requires fs.Valid() && m in ItemsSubtree(NodeAtPlace(s, fs, p).items)
    ensures e.stat.IsDirectory? ==> e.stat.directory.key in fs.keys
    ensures
      var h := Handle(s, p.chain + [LinkOf(p.visit)], p.visit, e, at);
      if h.Descend? then m in Subtree(WalkDirectory(s, fs, p.chain + [LinkOf(p.visit)], h.visit, at).node)
      else m in ItemSubtree(h.item)
  {
    var items := NodeAtPlace(s, fs, p).items;
    assert fs.list(p.visit.path).Entries? && DirectoriesIn(fs.list(p.visit.path), fs.keys);
    var entries := fs.list(p.visit.path).entries;
    var i := SubtreeIndex(items, m);
    at := ItemAnswersEntry(s, fs, p.chain + [LinkOf(p.visit)], p.visit, entries, p.seen, i);
    e := entries[i];
  }
}
