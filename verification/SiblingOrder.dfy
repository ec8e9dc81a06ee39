/** The order of the entries of a directory decides which name of an inode gets its disk bytes,
    but not the disk total of the root. */
module SiblingOrder {
  import opened Models
  import opened Paths
  import opened Walk
  import opened ScanShape
  import opened ScanTotals
  import opened HardlinkAccounting
  import opened HardlinkOrder

  /** The files below a directory, in no order, and the disk bytes and sizes of the directories themselves. */
  datatype Contents = Contents(files: multiset<FileStat>, disk: int, size: int)
  {
    function Plus(other: Contents): Contents {
      Contents(files + other.files, disk + other.disk, size + other.size)
    }
  }

  const NOTHING := Contents(multiset{}, 0, 0)

  predicate CountsAsFile(s: Setup, d: Visit, e: Entry) {
    !IsExcluded(Join(d.path, e.name), s.excludePaths) && e.stat.IsFile?
  }

  function DirectoryContents(s: Setup, fs: FileSystem, chain: seq<Link>, d: Visit): Contents
    requires fs.Valid()
    decreases fs.keys - ChainKeys(chain + [LinkOf(d)]), 1, 0
  {
    var own := Contents(multiset{}, d.stat.blocks * 512, d.stat.size);
    match fs.list(d.path)
    case Unlistable(_, _) => own
    case Entries(entries) =>
      assert DirectoriesIn(fs.list(d.path), fs.keys);
      own.Plus(EntriesContents(s, fs, chain + [LinkOf(d)], d, entries))
  }

  function EntriesContents(s: Setup, fs: FileSystem, chain: seq<Link>, d: Visit, entries: seq<Entry>): Contents
    requires fs.Valid() && EntriesIn(entries, fs.keys)
    decreases fs.keys - ChainKeys(chain), 0, |entries|
  {
    if entries == [] then NOTHING
    else
      TailEntriesIn(entries, fs.keys);
      EntryContents(s, fs, chain, d, entries[0]).Plus(EntriesContents(s, fs, chain, d, entries[1..]))
  }

  function EntryContents(s: Setup, fs: FileSystem, chain: seq<Link>, d: Visit, e: Entry): Contents
    requires fs.Valid() && (e.stat.IsDirectory? ==> e.stat.directory.key in fs.keys)
    decreases fs.keys - ChainKeys(chain), 0, 0
  {
    var h := Handle(s, chain, d, e, {});
    if h.Descend? then
      DescendShrinks(s, fs, chain, d, e, {});
      DirectoryContents(s, fs, chain, h.visit)
    else if CountsAsFile(s, d, e) then Contents(multiset{e.stat.file}, 0, 0)
    else NOTHING
  }

  lemma TailEntriesIn(entries: seq<Entry>, keys: set<Key>)
    requires EntriesIn(entries, keys) && entries != []
    ensures EntriesIn(entries[1..], keys)
  {
    assert forall i :: 0 <= i < |entries[1..]| ==> entries[1..][i] == entries[i + 1];
  }

  // ----- the walk meets these contents

  /** Contents of items of the visited tree. */
  function Met(uses: seq<Use>, nodes: seq<Node>): Contents {
    Contents(multiset(FilesOf(uses)), SumOwn(Disk, nodes), SumOwn(Apparent, nodes))
  }

  lemma {:induction false} FilesOfConcat(a: seq<Use>, b: seq<Use>)
    ensures FilesOf(a + b) == FilesOf(a) + FilesOf(b)
    decreases |b|
  {
    if b == [] {
      assert a + b == a;
    } else {
      assert (a + b)[..|a + b| - 1] == a + b[..|b| - 1];
      FilesOfConcat(a, b[..|b| - 1]);
    }
  }

  lemma MetCons(item: Item, rest: seq<Item>)
    ensures Met(ItemsUses([item] + rest), ItemsSubtree([item] + rest))
            == Met(ItemUses(item), ItemSubtree(item)).Plus(Met(ItemsUses(rest), ItemsSubtree(rest)))
    ensures LimitHit(ItemsUses([item] + rest)) <==> LimitHit(ItemUses(item)) || LimitHit(ItemsUses(rest))
  {
    UsesCons(item, rest);
    SubtreeCons(item, rest);
    FilesOfConcat(ItemUses(item), ItemsUses(rest));
    SumOwnConcat(Disk, ItemSubtree(item), ItemsSubtree(rest));
    SumOwnConcat(Apparent, ItemSubtree(item), ItemsSubtree(rest));
    LimitHitConcat(ItemUses(item), ItemsUses(rest));
  }

  lemma MetNode(n: Node)
    ensures Met(Uses(n), Subtree(n))
            == Contents(multiset{}, n.own.diskBytes, n.own.apparentBytes)
               .Plus(Met(ItemsUses(n.items), ItemsSubtree(n.items)))
  {
    SumOwnConcat(Disk, ItemsSubtree(n.items), [n]);
    SumOwnConcat(Apparent, ItemsSubtree(n.items), [n]);
    assert SumOwn(Disk, [n]) == SumOwn(Disk, []) + n.own.diskBytes;
    assert SumOwn(Apparent, [n]) == SumOwn(Apparent, []) + n.own.apparentBytes;
  }

  lemma MetPlain(effect: Effect)
    ensures Met(ItemUses(Plain(effect)), ItemSubtree(Plain(effect)))
            == if effect.use.File? then Contents(multiset{effect.use.file}, 0, 0) else NOTHING
  {
    assert [effect.use][..0] == [];
    assert FilesOf([effect.use]) == FilesOf([]) + if effect.use.File? then [effect.use.file] else [];
  }

  lemma MetEmpty(effect: Effect, node: Node)
    requires node.items == [] && node.own == ZERO_TOTALS
    ensures Met(ItemUses(Child(effect, node)), ItemSubtree(Child(effect, node))) == NOTHING
  {
    assert ItemUses(Child(effect, node)) == Uses(node) == [];
    MetSingle(node);
  }

  lemma MetSingle(node: Node)
    requires node.items == [] && node.own == ZERO_TOTALS
    ensures SumOwn(Disk, Subtree(node)) == 0 && SumOwn(Apparent, Subtree(node)) == 0
  {
    assert Subtree(node)[..0] == [];
  }

  /** What an entry that is not entered becomes: itself when it is a file, else nothing that counts. */
  lemma HandledUse(s: Setup, chain: seq<Link>, d: Visit, e: Entry, seen: set<Key>)
    ensures
      var h := Handle(s, chain, d, e, seen);
      h.Descend? == Handle(s, chain, d, e, {}).Descend? &&
      (!h.Descend? ==>
         if h.item.Child? then !CountsAsFile(s, d, e) && h.item.node.items == [] && h.item.node.own == ZERO_TOTALS
         else if CountsAsFile(s, d, e) then h.item.effect.use.File? && h.item.effect.use.file == e.stat.file
         else h.item.effect.use.NoFile?)
  {
  }

  /** An entry that is not entered adds itself when it is a file, whatever was seen before. */
  lemma MetEntry(s: Setup, fs: FileSystem, chain: seq<Link>, d: Visit, e: Entry, seen: set<Key>)
    requires fs.Valid() && (e.stat.IsDirectory? ==> e.stat.directory.key in fs.keys)
    requires !Handle(s, chain, d, e, seen).Descend?
    ensures
      var item := Handle(s, chain, d, e, seen).item;
      Met(ItemUses(item), ItemSubtree(item)) == EntryContents(s, fs, chain, d, e)
  {
    var item := Handle(s, chain, d, e, seen).item;
    HandledUse(s, chain, d, e, seen);
    if item.Plain? {
      MetPlain(item.effect);
    } else {
      MetEmpty(item.effect, item.node);
    }
  }

  /** What was met of these contents: no other files, and everything unless the limit was hit. */
  predicate Meets(uses: seq<Use>, nodes: seq<Node>, all: Contents) {
    Met(uses, nodes).files <= all.files && (!LimitHit(uses) ==> Met(uses, nodes) == all)
  }

  lemma MeetsCons(item: Item, rest: seq<Item>, first: Contents, others: Contents)
    requires Meets(ItemUses(item), ItemSubtree(item), first) && Meets(ItemsUses(rest), ItemsSubtree(rest), others)
    ensures Meets(ItemsUses([item] + rest), ItemsSubtree([item] + rest), first.Plus(others))
  {
    MetCons(item, rest);
  }

  lemma MeetsOnly(item: Item, first: Contents, others: Contents)
    requires Met(ItemUses(item), ItemSubtree(item)) == first && LimitHit(ItemsUses([item]))
    ensures Meets(ItemsUses([item]), ItemsSubtree([item]), first.Plus(others))
  {
    MetCons(item, []);
    assert [item] + [] == [item];
  }

  lemma MeetsNode(n: Node, below: Contents)
    requires Meets(ItemsUses(n.items), ItemsSubtree(n.items), below)
    ensures Meets(Uses(n), Subtree(n), Contents(multiset{}, n.own.diskBytes, n.own.apparentBytes).Plus(below))
  {
    MetNode(n);
  }

  /** Unless it gives up a directory at the limit, the walk meets everything below a directory. */
  lemma {:induction false} WalkMeets(s: Setup, fs: FileSystem, chain: seq<Link>, d: Visit, seen: set<Key>)
    requires fs.Valid()
    ensures
      var n := WalkDirectory(s, fs, chain, d, seen).node;
      Meets(Uses(n), Subtree(n), DirectoryContents(s, fs, chain, d))
    decreases fs.keys - ChainKeys(chain + [LinkOf(d)]), 1, 0
  {
    var n := WalkDirectory(s, fs, chain, d, seen).node;
    if fs.list(d.path).Entries? {
      assert DirectoriesIn(fs.list(d.path), fs.keys);
      var entries := fs.list(d.path).entries;
      EntriesMeet(s, fs, chain + [LinkOf(d)], d, entries, seen);
      MeetsNode(n, EntriesContents(s, fs, chain + [LinkOf(d)], d, entries));
    } else {
      MetNode(n);
      assert ItemsUses(n.items) == [] && ItemsSubtree(n.items) == [];
    }
  }

  ghost predicate ItemsMeet(s: Setup, fs: FileSystem, chain: seq<Link>, d: Visit, entries: seq<Entry>, seen: set<Key>)
    requires fs.Valid() && EntriesIn(entries, fs.keys)
  {
    var items := WalkEntries(s, fs, chain, d, entries, seen).items;
    Meets(ItemsUses(items), ItemsSubtree(items), EntriesContents(s, fs, chain, d, entries))
  }

  lemma NextMeets(s: Setup, fs: FileSystem, chain: seq<Link>, d: Visit, entries: seq<Entry>, seen: set<Key>)
    requires fs.Valid() && EntriesIn(entries, fs.keys) && entries != [] && EntriesIn(entries[1..], fs.keys)
    requires Handle(s, chain, d, entries[0], seen).Next?
    requires ItemsMeet(s, fs, chain, d, entries[1..], Handle(s, chain, d, entries[0], seen).seen)
    ensures ItemsMeet(s, fs, chain, d, entries, seen)
  {
    var h := Handle(s, chain, d, entries[0], seen);
    MetEntry(s, fs, chain, d, entries[0], seen);
    MeetsCons(h.item, WalkEntries(s, fs, chain, d, entries[1..], h.seen).items,
              EntryContents(s, fs, chain, d, entries[0]), EntriesContents(s, fs, chain, d, entries[1..]));
  }

  lemma AbandonMeets(s: Setup, fs: FileSystem, chain: seq<Link>, d: Visit, entries: seq<Entry>, seen: set<Key>)
    requires fs.Valid() && EntriesIn(entries, fs.keys) && entries != [] && EntriesIn(entries[1..], fs.keys)
    requires Handle(s, chain, d, entries[0], seen).Abandon?
    ensures ItemsMeet(s, fs, chain, d, entries, seen)
  {
    MetEntry(s, fs, chain, d, entries[0], seen);
    AbandonedHitsLimit(s, chain, d, entries[0], seen);
    MeetsOnly(Handle(s, chain, d, entries[0], seen).item, EntryContents(s, fs, chain, d, entries[0]),
              EntriesContents(s, fs, chain, d, entries[1..]));
  }

  lemma DescendMeets(s: Setup, fs: FileSystem, chain: seq<Link>, d: Visit, entries: seq<Entry>, seen: set<Key>)
    requires fs.Valid() && EntriesIn(entries, fs.keys) && entries != [] && EntriesIn(entries[1..], fs.keys)
    requires Handle(s, chain, d, entries[0], seen).Descend?
    requires
      var visit := Handle(s, chain, d, entries[0], seen).visit;
      var child := WalkDirectory(s, fs, chain, visit, seen);
      Meets(Uses(child.node), Subtree(child.node), DirectoryContents(s, fs, chain, visit)) &&
      ItemsMeet(s, fs, chain, d, entries[1..], child.seen)
    ensures ItemsMeet(s, fs, chain, d, entries, seen)
  {
    var h := Handle(s, chain, d, entries[0], seen);
    var child := WalkDirectory(s, fs, chain, h.visit, seen);
    var rest := WalkEntries(s, fs, chain, d, entries[1..], child.seen).items;
    DescendItems(s, fs, chain, d, entries, seen);
    DescendContents(s, fs, chain, d, entries[0], seen);
    ChildMeets(h.effect, child.node, DirectoryContents(s, fs, chain, h.visit));
    MeetsCons(Child(h.effect, child.node), rest, EntryContents(s, fs, chain, d, entries[0]),
              EntriesContents(s, fs, chain, d, entries[1..]));
  }

  lemma DescendItems(s: Setup, fs: FileSystem, chain: seq<Link>, d: Visit, entries: seq<Entry>, seen: set<Key>)
    requires fs.Valid() && EntriesIn(entries, fs.keys) && entries != [] && EntriesIn(entries[1..], fs.keys)
    requires Handle(s, chain, d, entries[0], seen).Descend?
    ensures
      var h := Handle(s, chain, d, entries[0], seen);
      var child := WalkDirectory(s, fs, chain, h.visit, seen);
      WalkEntries(s, fs, chain, d, entries, seen).items
      == [Child(h.effect, child.node)] + WalkEntries(s, fs, chain, d, entries[1..], child.seen).items
    ensures EntriesContents(s, fs, chain, d, entries)
            == EntryContents(s, fs, chain, d, entries[0]).Plus(EntriesContents(s, fs, chain, d, entries[1..]))
  {
  }

  lemma DescendContents(s: Setup, fs: FileSystem, chain: seq<Link>, d: Visit, e: Entry, seen: set<Key>)
    requires fs.Valid() && (e.stat.IsDirectory? ==> e.stat.directory.key in fs.keys)
    requires Handle(s, chain, d, e, seen).Descend?
    ensures EntryContents(s, fs, chain, d, e) == DirectoryContents(s, fs, chain, Handle(s, chain, d, e, seen).visit)
  {
    HandledUse(s, chain, d, e, seen);
  }

  lemma ChildMeets(effect: Effect, node: Node, all: Contents)
    requires Meets(Uses(node), Subtree(node), all)
    ensures Meets(ItemUses(Child(effect, node)), ItemSubtree(Child(effect, node)), all)
  {
  }

  lemma {:induction false} EntriesMeet(s: Setup, fs: FileSystem, chain: seq<Link>, d: Visit, entries: seq<Entry>,
                                       seen: set<Key>)
    requires fs.Valid() && EntriesIn(entries, fs.keys)
    ensures ItemsMeet(s, fs, chain, d, entries, seen)
    decreases fs.keys - ChainKeys(chain), 0, |entries|
  {
    if entries != [] {
      TailEntriesIn(entries, fs.keys);
      match Handle(s, chain, d, entries[0], seen)
      case Next(item, seen') =>
        EntriesMeet(s, fs, chain, d, entries[1..], seen');
        NextMeets(s, fs, chain, d, entries, seen);
      case Abandon(item) =>
        AbandonMeets(s, fs, chain, d, entries, seen);
      case Descend(effect, visit) =>
        DescendShrinks(s, fs, chain, d, entries[0], seen);
        WalkMeets(s, fs, chain, visit, seen);
        EntriesMeet(s, fs, chain, d, entries[1..], WalkDirectory(s, fs, chain, visit, seen).seen);
        DescendMeets(s, fs, chain, d, entries, seen);
    }
  }

  lemma AbandonedHitsLimit(s: Setup, chain: seq<Link>, d: Visit, e: Entry, seen: set<Key>)
    ensures
      var h := Handle(s, chain, d, e, seen);
      h.Abandon? ==> LimitHit(ItemsUses([h.item]))
  {
    var h := Handle(s, chain, d, e, seen);
    if h.Abandon? {
      assert ItemsUses([h.item]) == [] + ItemUses(h.item);
    }
  }

  // ----- the contents do not depend on the order of entries

  /** The same directories, with their entries in any order. */
  ghost predicate SameListings(a: FileSystem, b: FileSystem) {
    a.keys == b.keys &&
    forall path: Bytes :: SameListing(a.list(path), b.list(path))
  }

  predicate SameListing(a: Listing, b: Listing) {
    if a.Entries? && b.Entries? then multiset(a.entries) == multiset(b.entries) else a == b
  }

  lemma {:induction false} ContentsSplit(s: Setup, fs: FileSystem, chain: seq<Link>, d: Visit, before: seq<Entry>,
                                         e: Entry, after: seq<Entry>)
    requires fs.Valid() && EntriesIn(before + [e] + after, fs.keys) && EntriesIn(before + after, fs.keys)
    requires e.stat.IsDirectory? ==> e.stat.directory.key in fs.keys
    ensures EntriesContents(s, fs, chain, d, before + [e] + after)
            == EntryContents(s, fs, chain, d, e).Plus(EntriesContents(s, fs, chain, d, before + after))
    decreases |before|
  {
    if before == [] {
      assert before + [e] + after == [e] + after && ([e] + after)[1..] == after && before + after == after;
    } else {
      var all := before + [e] + after;
      assert all[1..] == before[1..] + [e] + after && (before + after)[1..] == before[1..] + after;
      TailEntriesIn(all, fs.keys);
      TailEntriesIn(before + after, fs.keys);
      ContentsSplit(s, fs, chain, d, before[1..], e, after);
    }
  }

  lemma EntriesInByMember(a: seq<Entry>, b: seq<Entry>, keys: set<Key>)
    requires EntriesIn(a, keys) && forall e :: e in b ==> e in a
    ensures EntriesIn(b, keys)
  {
    forall i | 0 <= i < |b| && b[i].stat.IsDirectory?
      ensures b[i].stat.directory.key in keys
    {
      assert b[i] in a;
    }
  }

  lemma {:induction false} ContentsPermute(s: Setup, fs: FileSystem, chain: seq<Link>, d: Visit, a: seq<Entry>,
                                           b: seq<Entry>)
    requires fs.Valid() && EntriesIn(a, fs.keys) && EntriesIn(b, fs.keys) && multiset(a) == multiset(b)
    ensures EntriesContents(s, fs, chain, d, a) == EntriesContents(s, fs, chain, d, b)
    decreases |a|
  {
    if a == [] {
      assert |multiset(b)| == 0;
    } else {
      var e, tail := a[0], a[1..];
      assert a == [e] + tail;
      assert e in multiset(b);
      var before, after := SplitEntries(b, e);
      TailEntriesIn(a, fs.keys);
      EntriesInByMember(b, before + after, fs.keys);
      assert multiset(before + after) == multiset(tail);
      ContentsPermute(s, fs, chain, d, tail, before + after);
      ContentsSplit(s, fs, chain, d, before, e, after);
    }
  }

  lemma SplitEntries(entries: seq<Entry>, e: Entry) returns (before: seq<Entry>, after: seq<Entry>)
    requires e in entries
    ensures entries == before + [e] + after && multiset(before + after) == multiset(entries) - multiset{e}
    ensures forall x :: x in before + after ==> x in entries
  {
    var i :| 0 <= i < |entries| && entries[i] == e;
    before, after := entries[..i], entries[i + 1..];
    assert entries == before + [e] + after;
  }

  lemma {:induction false} SameContents(s: Setup, a: FileSystem, b: FileSystem, chain: seq<Link>, d: Visit)
    requires a.Valid() && b.Valid() && SameListings(a, b)
    ensures DirectoryContents(s, a, chain, d) == DirectoryContents(s, b, chain, d)
    decreases a.keys - ChainKeys(chain + [LinkOf(d)]), 1, 0
  {
    assert SameListing(a.list(d.path), b.list(d.path));
    if a.list(d.path).Entries? && b.list(d.path).Entries? {
      assert DirectoriesIn(a.list(d.path), a.keys) && DirectoriesIn(b.list(d.path), b.keys);
      var es, fs := a.list(d.path).entries, b.list(d.path).entries;
      SameEntriesContents(s, a, b, chain + [LinkOf(d)], d, es);
      ContentsPermute(s, b, chain + [LinkOf(d)], d, es, fs);
    }
  }

  lemma {:induction false} SameEntriesContents(s: Setup, a: FileSystem, b: FileSystem, chain: seq<Link>, d: Visit,
                                               entries: seq<Entry>)
    requires a.Valid() && b.Valid() && SameListings(a, b) && EntriesIn(entries, a.keys)
    ensures EntriesContents(s, a, chain, d, entries) == EntriesContents(s, b, chain, d, entries)
    decreases a.keys - ChainKeys(chain), 0, |entries|
  {
    if entries != [] {
      TailEntriesIn(entries, a.keys);
      SameEntriesContents(s, a, b, chain, d, entries[1..]);
      var h := Handle(s, chain, d, entries[0], {});
      if h.Descend? {
        DescendShrinks(s, a, chain, d, entries[0], {});
        SameContents(s, a, b, chain, h.visit);
      }
    }
  }

  // ----- the limit and the total of a scan

  function LinkedIn(files: multiset<FileStat>): set<Key> {
    set f | f in files && IsHardlinked(f) :: f.key
  }

  lemma LinkedInIs(files: seq<FileStat>)
    ensures LinkedIn(multiset(files)) == LinkedKeys(files)
  {
    assert forall f :: f in multiset(files) <==> f in files;
  }

  /** A scan reaches the limit of tracked inodes exactly when there are more of them below its root. */
  lemma WalkHitsLimitIff(s: Setup, fs: FileSystem, d: Visit)
    requires fs.Valid()
    ensures
      var linked := LinkedIn(DirectoryContents(s, fs, [], d).files);
      LimitHit(Uses(WalkDirectory(s, fs, [], d, {}).node)) <==> |linked| > s.hardlinkMaxEntries && linked != {}
  {
    var uses := Uses(WalkDirectory(s, fs, [], d, {}).node);
    var all := DirectoryContents(s, fs, [], d).files;
    WalkMeets(s, fs, [], d, {});
    WalkCountsRight(s, fs, [], d, {});
    LimitHitIff(s.hardlinkMaxEntries, uses);
    LinkedInIs(FilesOf(uses));
    SubsetIsSmaller(LinkedKeys(FilesOf(uses)), LinkedIn(all));
  }

  /** Scans of one tree whose directories list their entries in different orders agree on whether they
      reach the limit of tracked inodes, and on the disk total of the root when they do not. */
  lemma RootDiskIgnoresSiblingOrder(s: Setup, a: FileSystem, b: FileSystem, d: Visit, sizes: map<Key, int>)
    requires a.Valid() && b.Valid() && SameListings(a, b)
    ensures
      var m, n := WalkDirectory(s, a, [], d, {}).node, WalkDirectory(s, b, [], d, {}).node;
      (LimitHit(Uses(m)) <==> LimitHit(Uses(n))) &&
      (!LimitHit(Uses(m)) && Consistent(sizes, FilesOf(Uses(m))) ==>
         NodeTotals(m).diskBytes == NodeTotals(n).diskBytes)
  {
    var m, n := WalkDirectory(s, a, [], d, {}).node, WalkDirectory(s, b, [], d, {}).node;
    SameContents(s, a, b, [], d);
    WalkHitsLimitIff(s, a, d);
    WalkHitsLimitIff(s, b, d);
    if !LimitHit(Uses(m)) && Consistent(sizes, FilesOf(Uses(m))) {
      WalkMeets(s, a, [], d, {});
      WalkMeets(s, b, [], d, {});
      WalkCountsRight(s, a, [], d, {});
      WalkCountsRight(s, b, [], d, {});
      RootDiskIsOrderFree(s.hardlinkMaxEntries, m, n, sizes);
    }
  }
}
