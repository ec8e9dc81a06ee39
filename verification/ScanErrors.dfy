/** Which errors and rows the entries of a directory leave, in terms of what the file system lists. */
module ScanErrors {
  import opened Models
  import opened Paths
  import opened Mounts
  import opened Walk
  import opened ScanShape
  import opened Places

  // ----- exclusion

  /** On canonical paths an exclude path excludes itself and everything below it. */
  lemma ExcludedIff(path: Bytes, excludePaths: seq<Bytes>)
    requires Canonical(path) && forall i :: 0 <= i < |excludePaths| ==> Canonical(excludePaths[i])
    ensures IsExcluded(path, excludePaths) <==>
            exists i :: 0 <= i < |excludePaths| && (path == excludePaths[i] || IsBelow(path, excludePaths[i]))
  {
    CanonicalStartsAtRoot(path);
    forall i | 0 <= i < |excludePaths|
      ensures (path == excludePaths[i] || excludePaths[i] == ROOT || excludePaths[i] + [SLASH] <= path) <==>
              path == excludePaths[i] || IsBelow(path, excludePaths[i])
    {
      WalkIsPrefixTest(path, excludePaths[i]);
    }
  }

  /** Below its root a scan enters no directory that is at or below an exclude path. */
  lemma NothingExcludedIsEntered(s: Setup, fs: FileSystem, d: Visit, m: Node)
    requires fs.Valid() && ListsNames(fs) && Canonical(d.path)
    requires forall i :: 0 <= i < |s.excludePaths| ==> Canonical(s.excludePaths[i])
    requires m in Subtree(WalkDirectory(s, fs, [], d, {}).node) && !m.fate.Skipped? && m.path != d.path
    ensures forall i :: 0 <= i < |s.excludePaths| ==>
              m.path != s.excludePaths[i] && !IsBelow(m.path, s.excludePaths[i])
  {
    var p := PlaceOf(s, fs, [], d, {}, m);
    WalkIsShaped(s, fs, [], d, {});
    SubtreeIsShaped(WalkDirectory(s, fs, [], d, {}).node, m);
    ExcludedIff(m.path, s.excludePaths);
  }

  // ----- what one entry leaves

  /** The mount of an entry, when mounts are known. */
  function MountAt(s: Setup, path: Bytes): Option<Mount> {
    if s.mounts != [] then FindMount(path, s.mounts) else None
  }

  /** The directory was not entered for this reason. */
  predicate NotEnteredFor(s: Setup, chain: seq<Link>, d: Visit, path: Bytes, stat: DirectoryStat, reason: SkipReason) {
    SkipHolds(s, chain, d.mount, MountAt(s, path), stat, reason)
  }

  /** A new inode with several names comes when the set of tracked inodes is full. */
  predicate IsPastLimit(s: Setup, f: FileStat, at: set<Key>) {
    f.kind == Regular && f.links >= 2 && f.key !in at && |at| >= s.hardlinkMaxEntries
  }

  /** The entry leaves this error. */
  predicate Leaves(s: Setup, chain: seq<Link>, d: Visit, e: Entry, at: set<Key>, error: ScanError) {
    error.path == Join(d.path, e.name) &&
    if IsExcluded(error.path, s.excludePaths) then
      s.recordSkipped && error.kind == Excluded && error.message == ExcludedByConfiguration
    else
      match e.stat
      case StatFailed(kind, detail) => error.kind == kind && error.message == SystemError(kind, detail)
      case IsDirectory(stat) =>
        s.recordSkipped && error.kind == MountSkipped && error.message.NotEntered? &&
        NotEnteredFor(s, chain, d, error.path, stat, error.message.reason)
      case IsFile(f) =>
        IsPastLimit(s, f, at) && error.kind == HardlinkLimit &&
        error.message == HardlinkLimitExceeded(s.hardlinkMaxEntries)
  }

  /** Only one reason holds, and none when the directory is entered. */
  lemma {:induction false} ReasonIsUnique(s: Setup, chain: seq<Link>, current: Option<Mount>, mount: Option<Mount>,
                                          stat: DirectoryStat, reason: SkipReason)
    requires SkipHolds(s, chain, current, mount, stat, reason)
    ensures
      var decision := ShouldDescend(s, chain, current, mount, stat);
      decision.Skip? && decision.reason == reason
  {
    DescendsIff(s, chain, current, mount, stat);
  }

  function EffectOf(s: Setup, chain: seq<Link>, d: Visit, e: Entry, at: set<Key>): Effect {
    var h := Handle(s, chain, d, e, at);
    if h.Descend? then h.effect else h.item.effect
  }

  lemma DirectoryErrors(s: Setup, chain: seq<Link>, d: Visit, e: Entry, at: set<Key>)
    requires !IsExcluded(Join(d.path, e.name), s.excludePaths) && e.stat.IsDirectory?
    ensures
      var path := Join(d.path, e.name);
      var decision := ShouldDescend(s, chain, d.mount, MountAt(s, path), e.stat.directory);
      EffectOf(s, chain, d, e, at).errors
      == if decision.Skip? && s.recordSkipped then [ScanError(path, MountSkipped, NotEntered(decision.reason))] else []
  {
  }

  /** The one reason for which a directory is not entered. */
  lemma {:induction false} ReasonIs(s: Setup, chain: seq<Link>, d: Visit, path: Bytes, stat: DirectoryStat,
                                    reason: SkipReason)
    ensures
      var decision := ShouldDescend(s, chain, d.mount, MountAt(s, path), stat);
      NotEnteredFor(s, chain, d, path, stat, reason) <==> decision.Skip? && decision.reason == reason
  {
    DescendsIff(s, chain, d.mount, MountAt(s, path), stat);
    if NotEnteredFor(s, chain, d, path, stat, reason) {
      ReasonIsUnique(s, chain, d.mount, MountAt(s, path), stat, reason);
    }
  }

  lemma {:induction false} DirectoryLeaves(s: Setup, chain: seq<Link>, d: Visit, e: Entry, at: set<Key>,
                                           error: ScanError)
    requires !IsExcluded(Join(d.path, e.name), s.excludePaths) && e.stat.IsDirectory?
    ensures error in EffectOf(s, chain, d, e, at).errors <==> Leaves(s, chain, d, e, at, error)
  {
    DirectoryErrors(s, chain, d, e, at);
    if error.message.NotEntered? {
      ReasonIs(s, chain, d, Join(d.path, e.name), e.stat.directory, error.message.reason);
    }
  }

  lemma {:induction false} EntryLeaves(s: Setup, chain: seq<Link>, d: Visit, e: Entry, at: set<Key>, error: ScanError)
    ensures error in EffectOf(s, chain, d, e, at).errors <==> Leaves(s, chain, d, e, at, error)
    ensures |EffectOf(s, chain, d, e, at).errors| <= 1
  {
    if !IsExcluded(Join(d.path, e.name), s.excludePaths) && e.stat.IsDirectory? {
      DirectoryLeaves(s, chain, d, e, at, error);
    }
  }

  /** The entry leaves a row: its own tree when it is entered, an empty row when it is excluded and looks
      like a directory, or is not entered and not on a default virtual file system. */
  lemma {:induction false} EntryLeavesRow(s: Setup, chain: seq<Link>, d: Visit, e: Entry, at: set<Key>)
    ensures
      var path, h := Join(d.path, e.name), Handle(s, chain, d, e, at);
      if IsExcluded(path, s.excludePaths) then !h.Descend? && (h.item.Child? <==> e.probe == LooksLikeDirectory)
      else if !e.stat.IsDirectory? then !h.Descend? && h.item.Plain?
      else
        !h.Descend? ==>
          (h.item.Child? <==>
            !(MountAt(s, path).Some? && MountAt(s, path).value.filesystemType in DEFAULT_SKIPPED_FILESYSTEMS))
    ensures
      var path, h := Join(d.path, e.name), Handle(s, chain, d, e, at);
      !h.Descend? && h.item.Child? ==>
        h.item.node.path == path && h.item.node.parentPath == Some(d.path) && h.item.node.depth == d.depth + 1 &&
        h.item.node.own == ZERO_TOTALS && h.item.node.items == [] && h.item.node.fate.Skipped? &&
        SkippedFor(s, chain, d, e, h.item.node.fate.why)
  {
    var path := Join(d.path, e.name);
    if !IsExcluded(path, s.excludePaths) && e.stat.IsDirectory? {
      DescendsIff(s, chain, d.mount, MountAt(s, path), e.stat.directory);
    }
  }

  /** Why an entry has an empty row. */
  predicate SkippedFor(s: Setup, chain: seq<Link>, d: Visit, e: Entry, why: RowError) {
    var path := Join(d.path, e.name);
    if IsExcluded(path, s.excludePaths) then why == ExcludedByConfiguration
    else e.stat.IsDirectory? && why.NotEntered? && NotEnteredFor(s, chain, d, path, e.stat.directory, why.reason)
  }

  /** How a file counts: of the names of a regular file with several only the first brings disk bytes,
      and a new one past the limit brings none. */
  function CountedAs(s: Setup, f: FileStat, at: set<Key>): Counting {
    if f.kind != Regular || f.links <= 1 then SingleName
    else if f.key in at then LaterName
    else if |at| < s.hardlinkMaxEntries then FirstName
    else PastLimit
  }

  /** What an entry adds to its directory: a directory, a file, or the first error of its row. */
  lemma EntryCounts(s: Setup, chain: seq<Link>, d: Visit, e: Entry, at: set<Key>)
    ensures
      var effect, excluded := EffectOf(s, chain, d, e, at), IsExcluded(Join(d.path, e.name), s.excludePaths);
      (effect.isDirectory <==> e.stat.IsDirectory? && !excluded) &&
      effect.use == (if e.stat.IsFile? && !excluded then File(e.stat.file, CountedAs(s, e.stat.file, at))
                     else NoFile) &&
      effect.message == (if excluded || e.stat.IsDirectory? || effect.errors == [] then None
                         else Some(effect.errors[0].message))
  {
  }

  /** What an entry adds to the evidence of its directory, whether skipped paths are recorded or not. */
  lemma EntryEvidence(s: Setup, chain: seq<Link>, d: Visit, e: Entry, at: set<Key>)
    ensures
      var h := Handle(s, chain, d, e, at);
      EffectOf(s, chain, d, e, at).evidence
      == if IsExcluded(Join(d.path, e.name), s.excludePaths) then multiset{Excluded}
         else match e.stat
              case StatFailed(kind, _) => multiset{kind}
              case IsDirectory(_) => if h.Descend? then multiset{} else multiset{MountSkipped}
              case IsFile(f) => if IsPastLimit(s, f, at) then multiset{HardlinkLimit} else multiset{}
  {
  }

  /** A directory that is entered is visited under its own path, with its own stat, one level deeper, on
      the best of the known mounts for it or else on its parent's. */
  lemma EnteredAs(s: Setup, chain: seq<Link>, d: Visit, e: Entry, at: set<Key>)
    requires Handle(s, chain, d, e, at).Descend?
    ensures
      var path, visit := Join(d.path, e.name), Handle(s, chain, d, e, at).visit;
      e.stat.IsDirectory? && visit.path == path && visit.parentPath == Some(d.path) && visit.depth == d.depth + 1 &&
      visit.stat == e.stat.directory &&
      (MountAt(s, path).Some? ==> visit.mount == MountAt(s, path)) &&
      (MountAt(s, path).None? ==> visit.mount == d.mount)
  {
  }

  // ----- the whole tree

  /** The directory or one of its entries left the error. */
  predicate HasError(m: Node, error: ScanError) {
    m.fate == Unreadable(error) ||
    (m.fate.Listed? && exists i :: 0 <= i < |m.items| && error in m.items[i].effect.errors)
  }

  predicate EmptyUnlessListed(m: Node) {
    m.fate.Listed? || m.items == []
  }

  lemma {:induction false} ErrorsOfTree(n: Node, error: ScanError)
    requires forall m :: m in Subtree(n) ==> EmptyUnlessListed(m)
    ensures error in NodeErrors(n) <==> exists m :: m in Subtree(n) && HasError(m, error)
    decreases n, 1, 0
  {
    assert n in Subtree(n) && EmptyUnlessListed(n);
    ErrorsOfItems(n, n.items, error);
    if m :| m in Subtree(n) && HasError(m, error) {
      assert m == n || m in ItemsSubtree(n.items);
    }
    if n.fate.Listed? && error in ItemsErrors(n.items) {
      if m :| m in ItemsSubtree(n.items) && HasError(m, error) {
        assert m in Subtree(n);
      } else {
        assert HasError(n, error);
      }
    }
  }

  lemma {:induction false} ErrorsOfItems(n: Node, items: seq<Item>, error: ScanError)
    requires items <= n.items && forall m :: m in Subtree(n) ==> EmptyUnlessListed(m)
    ensures error in ItemsErrors(items) <==>
            (exists i :: 0 <= i < |items| && error in items[i].effect.errors) ||
            (exists m :: m in ItemsSubtree(items) && HasError(m, error))
    decreases n, 0, |items|
  {
    if items != [] {
      var last := |items| - 1;
      var init := items[..last];
      ErrorsOfItems(n, init, error);
      assert items[last] == n.items[last];
      assert forall i :: 0 <= i < last ==> init[i] == items[i];
      if items[last].Child? {
        var child := items[last].node;
        forall m | m in Subtree(child)
          ensures EmptyUnlessListed(m)
        {
          ChildSubtree(n.items, last, m);
        }
        ErrorsOfTree(child, error);
      }
    }
  }

  /** The cause of an error, in the file system: a listing that failed, or an entry that was handled. */
  ghost predicate IsCause(s: Setup, fs: FileSystem, p: Place, error: ScanError)
    requires fs.Valid()
  {
    match fs.list(p.visit.path)
    case Unlistable(kind, detail) => error == ScanError(p.visit.path, kind, SystemError(kind, detail))
    case Entries(entries) =>
      var items, below := NodeAtPlace(s, fs, p).items, p.chain + [LinkOf(p.visit)];
      exists i, at :: 0 <= i < |items| && i < |entries| && Answers(s, fs, below, p.visit, entries[i], at, items[i]) &&
                      Leaves(s, below, p.visit, entries[i], at, error)
  }

  lemma AnswerLeaves(s: Setup, fs: FileSystem, chain: seq<Link>, d: Visit, e: Entry, at: set<Key>, item: Item,
                     error: ScanError)
    requires fs.Valid() && Answers(s, fs, chain, d, e, at, item)
    ensures error in item.effect.errors <==> Leaves(s, chain, d, e, at, error)
  {
    EntryLeaves(s, chain, d, e, at, error);
  }

  lemma CauseAtPlace(s: Setup, fs: FileSystem, p: Place, error: ScanError)
    requires fs.Valid()
    ensures HasError(NodeAtPlace(s, fs, p), error) <==> IsCause(s, fs, p, error)
    ensures EmptyUnlessListed(NodeAtPlace(s, fs, p))
  {
    var m := NodeAtPlace(s, fs, p);
    if fs.list(p.visit.path).Entries? {
      assert DirectoriesIn(fs.list(p.visit.path), fs.keys);
      var entries, below := fs.list(p.visit.path).entries, p.chain + [LinkOf(p.visit)];
      if i :| 0 <= i < |m.items| && error in m.items[i].effect.errors {
        var at := ItemAnswersEntry(s, fs, below, p.visit, entries, p.seen, i);
        AnswerLeaves(s, fs, below, p.visit, entries[i], at, m.items[i], error);
      }
      if i, at :| 0 <= i < |m.items| && i < |entries| && Answers(s, fs, below, p.visit, entries[i], at, m.items[i]) &&
                  Leaves(s, below, p.visit, entries[i], at, error)
      {
        AnswerLeaves(s, fs, below, p.visit, entries[i], at, m.items[i], error);
      }
    }
  }

  /** A directory of the tree at which the error was met. */
  ghost predicate IsMetAt(s: Setup, fs: FileSystem, m: Node, error: ScanError)
    requires fs.Valid()
  {
    exists p: Place :: m == NodeAtPlace(s, fs, p) && IsCause(s, fs, p, error)
  }

  /** The errors of a scan are exactly those that the listings and entries of its visited directories
      cause. */
  lemma ErrorsHaveCauses(s: Setup, fs: FileSystem, d: Visit, error: ScanError)
    requires fs.Valid()
    ensures
      var n := WalkDirectory(s, fs, [], d, {}).node;
      error in NodeErrors(n) <==> exists m :: m in Subtree(n) && IsMetAt(s, fs, m, error)
  {
    var n := WalkDirectory(s, fs, [], d, {}).node;
    forall m | m in Subtree(n)
      ensures EmptyUnlessListed(m) && (HasError(m, error) <==> IsMetAt(s, fs, m, error))
    {
      var p := PlaceOf(s, fs, [], d, {}, m);
      if m.fate.Skipped? {
        NotMetAtSkipped(s, fs, m, error);
      } else {
        CauseAtPlace(s, fs, p, error);
        if IsMetAt(s, fs, m, error) {
          MetAtAnyPlace(s, fs, m, error);
        }
      }
    }
    ErrorsOfTree(n, error);
  }

  lemma NotMetAtSkipped(s: Setup, fs: FileSystem, m: Node, error: ScanError)
    requires fs.Valid() && m.fate.Skipped?
    ensures !IsMetAt(s, fs, m, error)
  {
  }

  lemma MetAtAnyPlace(s: Setup, fs: FileSystem, m: Node, error: ScanError)
    requires fs.Valid() && IsMetAt(s, fs, m, error)
    ensures HasError(m, error)
  {
    var p: Place :| m == NodeAtPlace(s, fs, p) && IsCause(s, fs, p, error);
    CauseAtPlace(s, fs, p, error);
  }
}
