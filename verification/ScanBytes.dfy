/** The totals of a scan in terms of what the file system says of its directories and files. */
module ScanBytes {
  import opened Models
  import opened Paths
  import opened Walk
  import opened ScanShape
  import opened ScanTotals
  import opened HardlinkAccounting
  import opened HardlinkOrder
  import opened SiblingOrder
  import opened Scanner

  /** Blocks and sizes count for regular files and symlinks, not for devices, pipes and sockets. */
  predicate TakesSpace(f: FileStat) {
    f.kind == Regular || f.kind == Symlink
  }

  predicate HasOtherNames(f: FileStat) {
    f.kind == Regular && f.links >= 2
  }

  /** An earlier name of the same inode. */
  predicate IsRepeat(before: seq<FileStat>, f: FileStat) {
    HasOtherNames(f) && exists g :: g in before && HasOtherNames(g) && g.key == f.key
  }

  function BlockBytes(f: FileStat): int {
    if TakesSpace(f) then f.blocks * 512 else 0
  }

  /** What files take on disk, in their order: every inode counts at its first name. */
  function DiskOfNames(files: seq<FileStat>): int {
    if files == [] then 0
    else
      var before, last := files[..|files| - 1], files[|files| - 1];
      DiskOfNames(before) + if IsRepeat(before, last) then 0 else BlockBytes(last)
  }

  function RepeatedBytes(files: seq<FileStat>): int {
    if files == [] then 0
    else
      var before, last := files[..|files| - 1], files[|files| - 1];
      RepeatedBytes(before) + if IsRepeat(before, last) then BlockBytes(last) else 0
  }

  function SizeOfNames(files: seq<FileStat>): int {
    if files == [] then 0
    else
      var last := files[|files| - 1];
      SizeOfNames(files[..|files| - 1]) + if TakesSpace(last) then last.size else 0
  }

  function LinkedNames(files: seq<FileStat>): int {
    if files == [] then 0
    else LinkedNames(files[..|files| - 1]) + if HasOtherNames(files[|files| - 1]) then 1 else 0
  }

  function Repeats(files: seq<FileStat>): int {
    if files == [] then 0
    else
      var before, last := files[..|files| - 1], files[|files| - 1];
      Repeats(before) + if IsRepeat(before, last) then 1 else 0
  }

  lemma RepeatIffSeen(limit: int, uses: seq<Use>, f: FileStat)
    requires AllCountRight(limit, {}, uses) && !LimitHit(uses)
    ensures IsRepeat(FilesOf(uses), f) <==> IsHardlinked(f) && f.key in SeenAfter({}, uses)
  {
    SeenAreLinked(limit, uses);
  }

  /** What one more file adds to each column. */
  lemma OneMoreFile(files: seq<FileStat>, f: FileStat)
    ensures
      var more, repeat := files + [f], IsRepeat(files, f);
      DiskOfNames(more) == DiskOfNames(files) + (if repeat then 0 else BlockBytes(f)) &&
      RepeatedBytes(more) == RepeatedBytes(files) + (if repeat then BlockBytes(f) else 0) &&
      SizeOfNames(more) == SizeOfNames(files) + (if TakesSpace(f) then f.size else 0) &&
      LinkedNames(more) == LinkedNames(files) + (if HasOtherNames(f) then 1 else 0) &&
      Repeats(more) == Repeats(files) + (if repeat then 1 else 0)
  {
    assert (files + [f])[..|files|] == files;
  }

  lemma FileIsWorth(f: FileStat, counting: Counting, repeat: bool)
    requires counting == if !IsHardlinked(f) then SingleName else if repeat then LaterName else FirstName
    requires repeat ==> IsHardlinked(f)
    ensures Worth(Disk, f, counting) == if repeat then 0 else BlockBytes(f)
    ensures Worth(DuplicateDisk, f, counting) == if repeat then BlockBytes(f) else 0
    ensures Worth(Apparent, f, counting) == if TakesSpace(f) then f.size else 0
    ensures Worth(LinkNames, f, counting) == if HasOtherNames(f) then 1 else 0
    ensures Worth(LinkDuplicates, f, counting) == if repeat then 1 else 0
    ensures Worth(Files, f, counting) == 1
  {
  }

  /** The columns of the files, one by one. */
  predicate FilesAddUp(uses: seq<Use>) {
    var files := FilesOf(uses);
    SumUses(Disk, uses) == DiskOfNames(files) && SumUses(Apparent, uses) == SizeOfNames(files) &&
    SumUses(Files, uses) == |files| && SumUses(LinkNames, uses) == LinkedNames(files) &&
    SumUses(LinkDuplicates, uses) == Repeats(files) && SumUses(DuplicateDisk, uses) == RepeatedBytes(files)
  }

  lemma OneMoreAddsUp(limit: int, init: seq<Use>, last: Use)
    requires AllCountRight(limit, {}, init) && !LimitHit(init) && FilesAddUp(init)
    requires CountsRight(limit, SeenAfter({}, init), last) && !(last.File? && last.counting == PastLimit)
    ensures FilesAddUp(init + [last])
  {
    var uses := init + [last];
    assert uses[..|uses| - 1] == init;
    if last.File? {
      var files := FilesOf(init);
      assert FilesOf(uses) == files + [last.file];
      RepeatIffSeen(limit, init, last.file);
      FileIsWorth(last.file, last.counting, IsRepeat(files, last.file));
      OneMoreFile(files, last.file);
    } else {
      assert FilesOf(uses) == FilesOf(init);
    }
  }

  lemma {:induction false} UsesAddUp(limit: int, uses: seq<Use>)
    requires AllCountRight(limit, {}, uses) && !LimitHit(uses)
    ensures FilesAddUp(uses)
    decreases |uses|
  {
    if uses != [] {
      UsesAddUp(limit, uses[..|uses| - 1]);
      OneMoreAddsUp(limit, uses[..|uses| - 1], uses[|uses| - 1]);
      assert uses == uses[..|uses| - 1] + [uses[|uses| - 1]];
    }
  }

  /** When the limit of inodes is not reached, the totals of the root are those of everything below it:
      sizes and blocks of 512 bytes, where of the regular files with two or more links only the first name
      of each inode takes disk bytes. */
  lemma RootAddsUp(s: Setup, fs: FileSystem, d: Visit)
    requires fs.Valid() && ListsNames(fs) && Canonical(d.path)
    requires !LimitHit(Uses(WalkDirectory(s, fs, [], d, {}).node))
    ensures
      var n := WalkDirectory(s, fs, [], d, {}).node;
      var t, all, files := NodeTotals(n), DirectoryContents(s, fs, [], d), FilesOf(Uses(n));
      multiset(files) == all.files &&
      t.diskBytes == all.disk + DiskOfNames(files) && t.apparentBytes == all.size + SizeOfNames(files) &&
      t.fileCount == |files| && t.hardlinks.fileCount == LinkedNames(files) &&
      t.hardlinks.duplicateCount == Repeats(files) && t.hardlinks.duplicateDiskBytes == RepeatedBytes(files)
  {
    var n := WalkDirectory(s, fs, [], d, {}).node;
    WalkMeets(s, fs, [], d, {});
    WalkCountsRight(s, fs, [], d, {});
    WalkIsShaped(s, fs, [], d, {});
    UsesAddUp(s.hardlinkMaxEntries, Uses(n));
    RowIsSumOfSubtree(Disk, n);
    RowIsSumOfSubtree(Apparent, n);
    RowIsSumOfUses(Files, n);
    RowIsSumOfUses(LinkNames, n);
    RowIsSumOfUses(LinkDuplicates, n);
    RowIsSumOfUses(DuplicateDisk, n);
  }

  lemma LinksOfEntry(effect: Effect)
    ensures ItemHardlinks(Plain(effect)) == SumUses(LinkNames, ItemUses(Plain(effect)))
  {
    var uses := [effect.use];
    assert uses[..|uses| - 1] == [];
    assert SumUses(LinkNames, uses) == SumUses(LinkNames, []) + UseWorth(LinkNames, effect.use);
  }

  lemma LinksOfNode(effect: Effect, node: Node)
    requires ItemsHardlinks(node.items) == SumUses(LinkNames, ItemsUses(node.items))
    ensures ItemHardlinks(Child(effect, node)) == SumUses(LinkNames, ItemUses(Child(effect, node)))
  {
    assert ItemUses(Child(effect, node)) == Uses(node) == ItemsUses(node.items);
  }

  lemma {:induction false} LinksOfItems(n: Node, items: seq<Item>)
    requires items <= n.items
    ensures ItemsHardlinks(items) == SumUses(LinkNames, ItemsUses(items))
    decreases n, |items|
  {
    if items != [] {
      var init, last := items[..|items| - 1], items[|items| - 1];
      LinksOfItems(n, init);
      SumUsesConcat(LinkNames, ItemsUses(init), ItemUses(last));
      assert last == n.items[|items| - 1];
      match last {
        case Child(effect, node) =>
          LinksOfItems(node, node.items);
          LinksOfNode(effect, node);
        case Plain(effect) => LinksOfEntry(effect);
      }
    }
  }

  /** What a scan of a root that could be listed reports: as many names of files with several links as its
      root row counts, and as its last row that root row. */
  lemma ReportedLinks(policy: Option<CollapsePolicy>, n: Node)
    requires WellShaped(n) && !n.fate.Unreadable?
    ensures
      var result := ResultOf(policy, n);
      result.hardlinkCount == NodeTotals(n).hardlinks.fileCount && result.fatal.None? &&
      result.rows != [] && result.rows[|result.rows| - 1] == NodeRow(policy, n)
  {
    RowsEndWithRoot(policy, n);
    LinksOfItems(n, n.items);
    RowIsSumOfUses(LinkNames, n);
  }

  lemma RowsEndWithRoot(policy: Option<CollapsePolicy>, n: Node)
    ensures NodeRows(policy, n) != [] && NodeRows(policy, n)[|NodeRows(policy, n)| - 1] == NodeRow(policy, n)
  {
  }
}
