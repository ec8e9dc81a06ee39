/** Which directories collapse, in terms of their names and of what the file system lists. */
module CollapseDecision {
  import opened Models
  import opened Paths
  import opened Walk
  import opened ScanShape
  import opened Collapse
  import opened Places
  import opened ScanErrors

  lemma {:induction false} BaseNameOf(path: Bytes, i: nat)
    requires i < |path| && path[i] == SLASH && forall j :: i < j < |path| ==> path[j] != SLASH
    ensures BaseName(path) == path[i + 1..]
    decreases |path|
  {
    if i < |path| - 1 {
      var init := path[..|path| - 1];
      BaseNameOf(init, i);
      assert init[i + 1..] + [path[|path| - 1]] == path[i + 1..];
    } else {
      assert path[i + 1..] == [];
    }
  }

  lemma BaseNameOfEntry(dir: Bytes, name: Bytes)
    requires ValidName(name)
    ensures BaseName(Join(dir, name)) == name
  {
    var path := Join(dir, name);
    var i := if dir == ROOT then 0 else |dir|;
    JoinSlash(dir, name);
    BaseNameOf(path, i);
    assert path[i + 1..] == name;
  }

  /** How many of the entries are directories that are not excluded. */
  function DirectoriesListed(s: Setup, dir: Bytes, entries: seq<Entry>): nat {
    if entries == [] then 0
    else
      var last := entries[|entries| - 1];
      DirectoriesListed(s, dir, entries[..|entries| - 1]) +
      if last.stat.IsDirectory? && !IsExcluded(Join(dir, last.name), s.excludePaths) then 1 else 0
  }

  lemma {:induction false} CountedDirectories(s: Setup, fs: FileSystem, p: Place, entries: seq<Entry>, n: nat)
    requires fs.Valid() && fs.list(p.visit.path) == Entries(entries)
    requires n <= |NodeAtPlace(s, fs, p).items| <= |entries|
    ensures DirectoriesAmong(NodeAtPlace(s, fs, p).items[..n]) == DirectoriesListed(s, p.visit.path, entries[..n])
    decreases n
  {
    if n > 0 {
      CountedDirectories(s, fs, p, entries, n - 1);
      var items, below := NodeAtPlace(s, fs, p).items, p.chain + [LinkOf(p.visit)];
      assert items[..n][..n - 1] == items[..n - 1] && entries[..n][..n - 1] == entries[..n - 1];
      assert DirectoriesIn(fs.list(p.visit.path), fs.keys);
      var at := ItemAnswersEntry(s, fs, below, p.visit, entries, p.seen, n - 1);
      EntryCounts(s, below, p.visit, entries[n - 1], at);
    }
  }

  /** On the way to a path that must keep its rows, or below one. */
  predicate IsNearKept(path: Bytes, never: seq<Bytes>) {
    exists i :: 0 <= i < |never| && (path == never[i] || IsBelow(path, never[i]) || IsBelow(never[i], path))
  }

  lemma ProtectedIff(path: Bytes, never: seq<Bytes>)
    requires Canonical(path) && forall i :: 0 <= i < |never| ==> Canonical(never[i])
    ensures IsProtected(path, never) <==> IsNearKept(path, never)
  {
    forall i | 0 <= i < |never|
      ensures IsSameOrDescendant(path, never[i]) || IsSameOrDescendant(never[i], path) <==>
              path == never[i] || IsBelow(path, never[i]) || IsBelow(never[i], path)
    {
      WalkIsPrefixTest(path, never[i]);
      WalkIsPrefixTest(never[i], path);
    }
  }

  /** What collapses a directory of the given name: a configured name, or so many directories in it. */
  function Decision(policy: CollapsePolicy, kept: bool, name: Bytes, directories: nat): Option<CollapseReason> {
    if kept then None
    else if name in policy.names then Some(KnownNoise)
    else if 1 <= directories && policy.fanOut <= directories then Some(FanOut)
    else None
  }

  lemma PlaceCollapses(s: Setup, policy: CollapsePolicy, fs: FileSystem, p: Place, dir: Bytes, name: Bytes)
    requires fs.Valid() && Canonical(dir) && ValidName(name) && p.visit.path == Join(dir, name)
    requires forall i :: 0 <= i < |policy.never| ==> Canonical(policy.never[i])
    ensures
      var m := NodeAtPlace(s, fs, p);
      match fs.list(m.path)
      case Unlistable(_, _) => Reason(Some(policy), m) == None
      case Entries(entries) =>
        |m.items| <= |entries| && (|m.items| < |entries| ==> GaveUp(m.items)) &&
        Reason(Some(policy), m)
        == Decision(policy, IsNearKept(m.path, policy.never), name, DirectoriesListed(s, m.path, entries[..|m.items|]))
  {
    var m := NodeAtPlace(s, fs, p);
    JoinParent(dir, name);
    ProtectedIff(m.path, policy.never);
    BaseNameOfEntry(dir, name);
    if fs.list(m.path).Entries? {
      assert DirectoriesIn(fs.list(m.path), fs.keys);
      var entries := fs.list(m.path).entries;
      AllHandled(s, fs, p.chain + [LinkOf(p.visit)], p.visit, entries, p.seen);
      CountedDirectories(s, fs, p, entries, |m.items|);
      assert m.items[..|m.items|] == m.items;
    }
  }

  /** The directories among the entries of a visited directory that were handled: all of them, unless the
      limit of inodes made the scan give it up. */
  function DirectoriesHandled(s: Setup, fs: FileSystem, m: Node): nat {
    match fs.list(m.path)
    case Unlistable(_, _) => 0
    case Entries(entries) =>
      DirectoriesListed(s, m.path, if |m.items| <= |entries| then entries[..|m.items|] else entries)
  }

  lemma RowOfDirectory(policy: Policy, n: Node, m: Node, r: DirectoryAggregate)
    requires WellShaped(n) && m in Subtree(n) && r in NodeRows(policy, n) && r.path == m.path
    ensures r == NodeRow(policy, m)
  {
    RowComesFrom(policy, n, r);
    var k :| k in Subtree(n) && !IsFolded(policy, n, k.path) && NodeRow(policy, k) == r;
    RowNumbers(policy, k);
    SubtreePathsAreUnique(n, k, m);
  }

  /** A row is collapsed exactly when its directory was listed, is not near a path that must keep its
      rows, and has a configured name, or has directories in it, as many as the fan-out asks for. */
  lemma RowCollapsesIff(s: Setup, policy: CollapsePolicy, fs: FileSystem, d: Visit, m: Node, dir: Bytes, name: Bytes,
                        r: DirectoryAggregate)
    requires fs.Valid() && ListsNames(fs) && Canonical(d.path)
    requires forall i :: 0 <= i < |policy.never| ==> Canonical(policy.never[i])
    requires Canonical(dir) && ValidName(name) && m.path == Join(dir, name)
    requires m in Subtree(WalkDirectory(s, fs, [], d, {}).node)
    requires r in NodeRows(Some(policy), WalkDirectory(s, fs, [], d, {}).node) && r.path == m.path
    ensures
      var mayCollapse := m.fate.Listed? && !IsNearKept(m.path, policy.never);
      var directories := DirectoriesHandled(s, fs, m);
      (r.facts.collapseReason == Some(KnownNoise) <==> mayCollapse && name in policy.names) &&
      (r.facts.collapseReason == Some(FanOut) <==>
        mayCollapse && name !in policy.names && 1 <= directories && policy.fanOut <= directories) &&
      (r.facts.collapsed <==> r.facts.collapseReason.Some?)
    ensures m.fate.Listed? ==>
              fs.list(m.path).Entries? && |m.items| <= |fs.list(m.path).entries| &&
              (|m.items| < |fs.list(m.path).entries| ==> GaveUp(m.items))
  {
    WalkIsShaped(s, fs, [], d, {});
    RowOfDirectory(Some(policy), WalkDirectory(s, fs, [], d, {}).node, m, r);
    var p := PlaceOf(s, fs, [], d, {}, m);
    if !m.fate.Skipped? {
      PlaceCollapses(s, policy, fs, p, dir, name);
    }
  }
}
