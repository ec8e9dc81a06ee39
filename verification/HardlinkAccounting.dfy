/** Files with several links: every inode counts once while the set of seen inodes has room. */
module HardlinkAccounting {
  import opened Models
  import opened Paths
  import opened Walk
  import opened ScanShape
  import opened ScanTotals

  /** The inodes seen after the given files. */
  function SeenAfter(seen: set<Key>, uses: seq<Use>): set<Key> {
    if uses == [] then seen else SeenWith(SeenAfter(seen, uses[..|uses| - 1]), uses[|uses| - 1])
  }

  function SeenWith(seen: set<Key>, u: Use): set<Key> {
    if u.File? && (u.counting == FirstName || u.counting == LaterName) then seen + {u.file.key} else seen
  }

  /** How a file must count when the given inodes were seen before it. */
  predicate CountsRight(limit: int, seen: set<Key>, u: Use) {
    u.File? ==>
      u.counting == if !IsHardlinked(u.file) then SingleName
                    else if u.file.key in seen then LaterName
                    else if |seen| < limit then FirstName
                    else PastLimit
  }

  predicate AllCountRight(limit: int, seen: set<Key>, uses: seq<Use>) {
    uses != [] ==>
      AllCountRight(limit, seen, uses[..|uses| - 1]) &&
      CountsRight(limit, SeenAfter(seen, uses[..|uses| - 1]), uses[|uses| - 1])
  }

  lemma {:induction false} CountConcat(limit: int, seen: set<Key>, a: seq<Use>, b: seq<Use>)
    ensures SeenAfter(seen, a + b) == SeenAfter(SeenAfter(seen, a), b)
    ensures AllCountRight(limit, seen, a + b) <==>
            AllCountRight(limit, seen, a) && AllCountRight(limit, SeenAfter(seen, a), b)
    decreases |b|
  {
    if b == [] {
      assert a + b == a;
    } else {
      assert (a + b)[..|a + b| - 1] == a + b[..|b| - 1];
      CountConcat(limit, seen, a, b[..|b| - 1]);
    }
  }

  lemma {:induction false} UsesCons(item: Item, rest: seq<Item>)
    ensures ItemsUses([item] + rest) == ItemUses(item) + ItemsUses(rest)
    decreases |rest|
  {
    if rest == [] {
      assert [item] + rest == [item];
      assert ItemsUses([item]) == [] + ItemUses(item);
    } else {
      assert ([item] + rest)[..|rest|] == [item] + rest[..|rest| - 1];
      UsesCons(item, rest[..|rest| - 1]);
    }
  }

  // ----- the walk threads the set of seen inodes

  lemma SingleUse(limit: int, seen: set<Key>, u: Use)
    requires CountsRight(limit, seen, u)
    ensures AllCountRight(limit, seen, [u]) && SeenAfter(seen, [u]) == SeenWith(seen, u)
  {
  }

  /** What an entry does to the set of seen inodes agrees with how it counts. */
  predicate Tracks(limit: int, seen: set<Key>, item: Item, seen': set<Key>) {
    AllCountRight(limit, seen, ItemUses(item)) && SeenAfter(seen, ItemUses(item)) == seen'
  }

  lemma NoUseTracks(limit: int, seen: set<Key>, item: Item)
    requires if item.Child? then item.node.items == [] else item.effect.use.NoFile?
    ensures Tracks(limit, seen, item, seen)
  {
    if item.Child? {
      assert ItemsUses(item.node.items) == [];
      assert Uses(item.node) == [];
    } else {
      SingleUse(limit, seen, item.effect.use);
    }
  }

  lemma FileTracks(s: Setup, path: Bytes, f: FileStat, seen: set<Key>)
    ensures
      var h := FileEntry(s, path, f, seen);
      !h.Descend? && Tracks(s.hardlinkMaxEntries, seen, h.item, if h.Next? then h.seen else seen)
  {
  }

  lemma HandledTracks(s: Setup, chain: seq<Link>, d: Visit, e: Entry, seen: set<Key>)
    ensures
      var h := Handle(s, chain, d, e, seen);
      (h.Next? ==> Tracks(s.hardlinkMaxEntries, seen, h.item, h.seen)) &&
      (h.Abandon? ==> Tracks(s.hardlinkMaxEntries, seen, h.item, seen))
  {
    var path := Join(d.path, e.name);
    var h := Handle(s, chain, d, e, seen);
    if !IsExcluded(path, s.excludePaths) && e.stat.IsFile? {
      FileTracks(s, path, e.stat.file, seen);
    } else if !h.Descend? {
      NoUseTracks(s.hardlinkMaxEntries, seen, h.item);
    }
  }

  lemma {:induction false} WalkCountsRight(s: Setup, fs: FileSystem, chain: seq<Link>, d: Visit, seen: set<Key>)
    requires fs.Valid()
    ensures
      var w := WalkDirectory(s, fs, chain, d, seen);
      AllCountRight(s.hardlinkMaxEntries, seen, Uses(w.node)) && SeenAfter(seen, Uses(w.node)) == w.seen
    decreases fs.keys - ChainKeys(chain + [LinkOf(d)]), 1, 0
  {
    if fs.list(d.path).Entries? {
      assert DirectoriesIn(fs.list(d.path), fs.keys);
      EntriesCountRight(s, fs, chain + [LinkOf(d)], d, fs.list(d.path).entries, seen);
    }
  }

  lemma {:induction false} EntriesCountRight(s: Setup, fs: FileSystem, chain: seq<Link>, d: Visit, entries: seq<Entry>,
                                             seen: set<Key>)
    requires fs.Valid() && EntriesIn(entries, fs.keys)
    ensures
      var w := WalkEntries(s, fs, chain, d, entries, seen);
      AllCountRight(s.hardlinkMaxEntries, seen, ItemsUses(w.items)) && SeenAfter(seen, ItemsUses(w.items)) == w.seen
    decreases fs.keys - ChainKeys(chain), 0, |entries|
  {
    if entries != [] {
      HandledTracks(s, chain, d, entries[0], seen);
      assert forall i :: 0 <= i < |entries[1..]| ==> entries[1..][i] == entries[i + 1];
      match Handle(s, chain, d, entries[0], seen)
      case Next(item, seen') =>
        EntriesCountRight(s, fs, chain, d, entries[1..], seen');
        FirstThenRest(s.hardlinkMaxEntries, seen, item, WalkEntries(s, fs, chain, d, entries[1..], seen').items);
      case Abandon(item) =>
        assert ItemsUses([item]) == [] + ItemUses(item);
      case Descend(effect, visit) =>
        DescendShrinks(s, fs, chain, d, entries[0], seen);
        WalkCountsRight(s, fs, chain, visit, seen);
        var child := WalkDirectory(s, fs, chain, visit, seen);
        EntriesCountRight(s, fs, chain, d, entries[1..], child.seen);
        FirstThenRest(s.hardlinkMaxEntries, seen, Child(effect, child.node),
                      WalkEntries(s, fs, chain, d, entries[1..], child.seen).items);
    }
  }

  lemma FirstThenRest(limit: int, seen: set<Key>, item: Item, rest: seq<Item>)
    requires AllCountRight(limit, seen, ItemUses(item))
    requires AllCountRight(limit, SeenAfter(seen, ItemUses(item)), ItemsUses(rest))
    ensures AllCountRight(limit, seen, ItemsUses([item] + rest))
    ensures SeenAfter(seen, ItemsUses([item] + rest)) == SeenAfter(SeenAfter(seen, ItemUses(item)), ItemsUses(rest))
  {
    UsesCons(item, rest);
    CountConcat(limit, seen, ItemUses(item), ItemsUses(rest));
  }

  // ----- what follows

  /** The inodes seen are the counted names that were not duplicates, and within the limit. */
  lemma {:induction false} SeenAreNamesWithoutDuplicates(limit: int, seen: set<Key>, uses: seq<Use>)
    requires AllCountRight(limit, seen, uses) && (|seen| <= limit || |seen| == 0)
    ensures SumUses(LinkNames, uses) - SumUses(LinkDuplicates, uses) == |SeenAfter(seen, uses)| - |seen|
    ensures |SeenAfter(seen, uses)| <= limit || |SeenAfter(seen, uses)| == 0
    decreases |uses|
  {
    if uses != [] {
      SeenAreNamesWithoutDuplicates(limit, seen, uses[..|uses| - 1]);
    }
  }

  predicate LimitHit(uses: seq<Use>) {
    uses != [] && (LimitHit(uses[..|uses| - 1]) || (uses[|uses| - 1].File? && uses[|uses| - 1].counting == PastLimit))
  }

  /** The disk bytes of all names, each counted. */
  function SumNames(uses: seq<Use>): int {
    if uses == [] then 0
    else SumNames(uses[..|uses| - 1]) + if uses[|uses| - 1].File? then DiskBytes(uses[|uses| - 1].file) else 0
  }

  lemma {:induction false} DiskPlusDuplicates(uses: seq<Use>)
    requires !LimitHit(uses)
    ensures SumUses(Disk, uses) + SumUses(DuplicateDisk, uses) == SumNames(uses)
    decreases |uses|
  {
    if uses != [] {
      DiskPlusDuplicates(uses[..|uses| - 1]);
    }
  }

  /** The accounting of one scan, in terms of its root row: what was seen, and what the
      duplicates hide. */
  lemma RootAccounting(s: Setup, fs: FileSystem, d: Visit)
    requires fs.Valid() && ListsNames(fs) && Canonical(d.path)
    ensures
      var w := WalkDirectory(s, fs, [], d, {});
      var t := NodeTotals(w.node);
      t.hardlinks.fileCount - t.hardlinks.duplicateCount == |w.seen| &&
      (|w.seen| <= s.hardlinkMaxEntries || |w.seen| == 0) &&
      (!LimitHit(Uses(w.node)) ==>
         t.diskBytes + t.hardlinks.duplicateDiskBytes == SumOwn(Disk, Subtree(w.node)) + SumNames(Uses(w.node)))
  {
    var n := WalkDirectory(s, fs, [], d, {}).node;
    WalkIsShaped(s, fs, [], d, {});
    WalkCountsRight(s, fs, [], d, {});
    SeenAreNamesWithoutDuplicates(s.hardlinkMaxEntries, {}, Uses(n));
    RowIsSumOfUses(LinkNames, n);
    RowIsSumOfUses(LinkDuplicates, n);
    RowIsSumOfSubtree(Disk, n);
    RowIsSumOfUses(DuplicateDisk, n);
    if !LimitHit(Uses(n)) {
      DiskPlusDuplicates(Uses(n));
    }
  }

  // ----- the limit

  lemma {:induction false} LimitHitConcat(a: seq<Use>, b: seq<Use>)
    ensures LimitHit(a + b) <==> LimitHit(a) || LimitHit(b)
    decreases |b|
  {
    if b == [] {
      assert a + b == a;
    } else {
      assert (a + b)[..|a + b| - 1] == a + b[..|b| - 1];
      LimitHitConcat(a, b[..|b| - 1]);
    }
  }

  /** Only a file past the limit makes an entry give up its directory. */
  predicate Honest(item: Item)
    decreases item
  {
    match item
    case Plain(effect) => effect.use.File? && effect.use.counting == PastLimit ==> effect.incomplete
    case Child(_, node) => HonestNode(node)
  }

  predicate HonestNode(n: Node)
    decreases n
  {
    (n.fate.Listed? || n.items == []) && AllHonest(n.items)
  }

  predicate AllHonest(items: seq<Item>)
    decreases items
  {
    forall i :: 0 <= i < |items| ==> Honest(items[i])
  }

  lemma AllHonestCons(item: Item, rest: seq<Item>)
    requires Honest(item) && AllHonest(rest)
    ensures AllHonest([item] + rest)
  {
  }

  lemma {:induction false} WalkIsHonest(s: Setup, fs: FileSystem, chain: seq<Link>, d: Visit, seen: set<Key>)
    requires fs.Valid()
    ensures HonestNode(WalkDirectory(s, fs, chain, d, seen).node)
    decreases fs.keys - ChainKeys(chain + [LinkOf(d)]), 1, 0
  {
    if fs.list(d.path).Entries? {
      assert DirectoriesIn(fs.list(d.path), fs.keys);
      EntriesAreHonest(s, fs, chain + [LinkOf(d)], d, fs.list(d.path).entries, seen);
    }
  }

  lemma {:induction false} EntriesAreHonest(s: Setup, fs: FileSystem, chain: seq<Link>, d: Visit, entries: seq<Entry>,
                                            seen: set<Key>)
    requires fs.Valid() && EntriesIn(entries, fs.keys)
    ensures AllHonest(WalkEntries(s, fs, chain, d, entries, seen).items)
    decreases fs.keys - ChainKeys(chain), 0, |entries|
  {
    if entries != [] {
      assert forall i :: 0 <= i < |entries[1..]| ==> entries[1..][i] == entries[i + 1];
      match Handle(s, chain, d, entries[0], seen)
      case Next(item, seen') =>
        EntriesAreHonest(s, fs, chain, d, entries[1..], seen');
        AllHonestCons(item, WalkEntries(s, fs, chain, d, entries[1..], seen').items);
      case Abandon(item) =>
      case Descend(effect, visit) =>
        DescendShrinks(s, fs, chain, d, entries[0], seen);
        WalkIsHonest(s, fs, chain, visit, seen);
        var child := WalkDirectory(s, fs, chain, visit, seen);
        EntriesAreHonest(s, fs, chain, d, entries[1..], child.seen);
        AllHonestCons(Child(effect, child.node), WalkEntries(s, fs, chain, d, entries[1..], child.seen).items);
    }
  }

  /** A scan that reached the limit is not complete. */
  lemma {:induction false} LimitMakesIncomplete(n: Node)
    requires HonestNode(n) && LimitHit(Uses(n))
    ensures NodeIncomplete(n)
    decreases n, 1, 0
  {
    LimitMakesItemsIncomplete(n, n.items);
  }

  lemma {:induction false} LimitMakesItemsIncomplete(n: Node, items: seq<Item>)
    requires HonestNode(n) && items <= n.items && LimitHit(ItemsUses(items))
    ensures ItemsIncomplete(items)
    decreases n, 0, |items|
  {
    var last := |items| - 1;
    LimitHitConcat(ItemsUses(items[..last]), ItemUses(items[last]));
    assert Honest(n.items[last]);
    if LimitHit(ItemsUses(items[..last])) {
      LimitMakesItemsIncomplete(n, items[..last]);
    } else if items[last].Child? {
      LimitMakesIncomplete(items[last].node);
    }
  }
}
