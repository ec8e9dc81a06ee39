/** Inputs on which a promise fails. The exact conditions are stated beside the promises. */
module Counterexamples {
  import opened Models
  import opened Ids
  import opened Tables
  import opened Normalization
  import opened StoreRuns
  import opened Coalesce
  import opened Retention
  import opened Paths
  import opened Dominance
  import opened Diff
  import opened FoldingDiff
  import opened FastDelta
  import opened Walk
  import opened ScanShape
  import opened Collapse
  import opened Relocation
  import opened RelocationSides
  import opened FastReport

  // ----- a path that changes and changes back

  const WINDOWS := RetentionPolicy(1, 10, 1)
  const NOW := 5 * SECONDS_PER_DAY

  function ThirtyDays(day: int): int {
    day / 30
  }

  function Finished(root: Root, at: int): Snapshot {
    Snapshot(root, Complete, at, Some(at))
  }

  /** One snapshot on the first day and two on the second; the path is different in the middle one. */
  function Alternating(root: Root, path: Bytes, f: Facts, g: Facts): Tables {
    Tables(map[1 := Finished(root, 0), 2 := Finished(root, SECONDS_PER_DAY), 3 := Finished(root, SECONDS_PER_DAY + 1)],
           map[],
           {Interval(root, 1, 1, Id(2), State(Null, Null, f)),
            Interval(root, 1, 2, Id(3), State(Null, Null, g)),
            Interval(root, 1, 3, Null, State(Null, Null, f))},
           map[1 := path])
  }

  function RetainedOf(t: Tables): set<SnapshotId> {
    Retained(t.snapshots, CutoffsAt(WINDOWS, NOW), ThirtyDays)
  }

  lemma AlternatingRetains(root: Root, path: Bytes, f: Facts, g: Facts)
    ensures RetainedOf(Alternating(root, path, f, g)) == {1, 3}
    ensures Kept(Alternating(root, path, f, g).snapshots, {1, 3}, root) == {1, 3}
  {
    var all := Alternating(root, path, f, g).snapshots;
    var c := CutoffsAt(WINDOWS, NOW);
    assert RepresentativeOf(all, 3).LaterThan(RepresentativeOf(all, 2));
    assert 3 in all && IsDaily(all[3], c) && DayOf(all[3]) == DayOf(all[2]);
    assert LatestOfDay(all, c, 1) && LatestOfDay(all, c, 3);
  }

  lemma AlternatingIsCoherent(root: Root, path: Bytes, f: Facts, g: Facts)
    ensures Coherent(Alternating(root, path, f, g))
  {
    var t := Alternating(root, path, f, g);
    assert 1 in t.snapshots && 2 in t.snapshots && 3 in t.snapshots;
  }

  function First(root: Root, f: Facts): Interval {
    Interval(root, 1, 1, Id(2), State(Null, Null, f))
  }

  function Third(root: Root, f: Facts): Interval {
    Interval(root, 1, 3, Null, State(Null, Null, f))
  }

  lemma NothingToMerge(root: Root, path: Bytes, f: Facts, g: Facts)
    requires f != g
    ensures Removable(Alternating(root, path, f, g).intervals) == {}
  {
    var t := Alternating(root, path, f, g);
    AlternatingIsCoherent(root, path, f, g);
    CoherentIsShaped(t);
    forall j | j in t.intervals
      ensures !IsRemovable(t.intervals, j)
    {
      RemovableIff(t.intervals, j);
    }
  }

  lemma FirstAndThirdRejoin(root: Root, path: Bytes, f: Facts, g: Facts)
    ensures Rejoins(Alternating(root, path, f, g), {1, 3}, First(root, f), Third(root, f))
  {
    AlternatingRetains(root, path, f, g);
    var first, third := First(root, f), Third(root, f);
    assert 1 in {1, 3} && first.Covers(1);
    assert 3 in {1, 3} && third.Covers(3);
  }

  /** A retention run drops the middle snapshot and leaves two neighbouring rows with one state,
      where there was nothing to merge before. */
  lemma PruningCanLeaveRemovable(root: Root, path: Bytes, f: Facts, g: Facts)
    requires f != g
    ensures
      var t := Alternating(root, path, f, g);
      WINDOWS.Valid() && Coherent(t) && Removable(t.intervals) == {} &&
      Removable(NormalizedIntervals(t, RetainedOf(t))) != {}
  {
    var t := Alternating(root, path, f, g);
    AlternatingIsCoherent(root, path, f, g);
    NothingToMerge(root, path, f, g);
    AlternatingRetains(root, path, f, g);
    FirstAndThirdRejoin(root, path, f, g);
    assert First(root, f) in t.intervals && Third(root, f) in t.intervals;
    PruneLeavesRemovableIff(t, {1, 3});
  }

  /** After the boundaries moved and before its deletion, the middle snapshot reads the rows of the
      first one. */
  lemma DroppedCanReadOtherRows(root: Root, path: Bytes, f: Facts, g: Facts)
    ensures
      var t := Alternating(root, path, f, g);
      Coherent(t) && 2 in t.snapshots && t.snapshots[2].status == Complete && 2 !in RetainedOf(t) &&
      Rows(t, 2) == {DirectoryAggregate(path, None, None, g)} &&
      Rows(Normalize(t, RetainedOf(t)), 2) == {DirectoryAggregate(path, None, None, f)}
  {
    var t := Alternating(root, path, f, g);
    AlternatingIsCoherent(root, path, f, g);
    AlternatingRetains(root, path, f, g);
    AlternatingReads(root, path, f, g);
    assert 1 in {1, 3} && Floor({1, 3}, 2) == Id(1);
    RebasedTo(t, {1, 3}, 2, 1);
  }

  lemma AlternatingReads(root: Root, path: Bytes, f: Facts, g: Facts)
    ensures
      var t := Alternating(root, path, f, g);
      1 in t.snapshots && Rows(t, 1) == {DirectoryAggregate(path, None, None, f)} &&
      2 in t.snapshots && Rows(t, 2) == {DirectoryAggregate(path, None, None, g)}
  {
    var t := Alternating(root, path, f, g);
    ReadsOneRow(t, 1, First(root, f));
    ReadsOneRow(t, 2, Interval(root, 1, 2, Id(3), State(Null, Null, g)));
  }

  lemma RebasedTo(t: Tables, retained: set<SnapshotId>, id: SnapshotId, floor: SnapshotId)
    requires Coherent(t) && id in t.snapshots && t.snapshots[id].status == Complete
    requires Floor(Kept(t.snapshots, retained, t.snapshots[id].rootPath), id) == Id(floor)
    ensures floor in t.snapshots && Rows(Normalize(t, retained), id) == Rows(t, floor)
  {
    RebaseReads(t, retained);
  }

  /** A complete snapshot of which one interval covers it reads one row. */
  lemma ReadsOneRow(t: Tables, id: SnapshotId, i: Interval)
    requires id in t.snapshots && t.snapshots[id].status == Complete
    requires forall j :: j in t.intervals && j.root == t.snapshots[id].rootPath && j.Covers(id) <==> j == i
    requires i.pathId in t.paths
    ensures Rows(t, id) == {Decode(t.paths, StateRow(i.pathId, i.state))}
  {
    assert CoveringStates(t.intervals, t.snapshots[id].rootPath, id) == {StateRow(i.pathId, i.state)};
  }

  // ----- a directory that is collapsed from one scan to the next

  const NAME: Bytes := [97]

  /** The root with one directory in it. */
  function Leaf(size: int, blocks: int): Node {
    Node(Join(ROOT, NAME), Some(ROOT), 1, OwnTotals(DirectoryStat(Key(0, 1), size, blocks)), Listed, [])
  }

  function RootWithLeaf(size: int, blocks: int): Node {
    Node(ROOT, None, 0, OwnTotals(DirectoryStat(Key(0, 0), 0, 0)), Listed,
         [Child(NO_EFFECT.(isDirectory := true), Leaf(size, blocks))])
  }

  const FAN_OUT_OF_ONE := CollapsePolicy({}, 1, [])

  lemma RootIsShaped(size: int, blocks: int)
    ensures WellShaped(RootWithLeaf(size, blocks))
  {
    JoinParent(ROOT, NAME);
    assert WellShaped(Leaf(size, blocks));
  }

  lemma RowsWithoutPolicy(size: int, blocks: int)
    ensures NodeRows(None, RootWithLeaf(size, blocks))
            == [PlainRow(Leaf(size, blocks)), PlainRow(RootWithLeaf(size, blocks))]
  {
    var n := RootWithLeaf(size, blocks);
    assert NodeRows(None, Leaf(size, blocks)) == [PlainRow(Leaf(size, blocks))];
    assert ItemsRows(None, n.items) == ItemsRows(None, []) + ItemRows(None, n.items[0]);
  }

  lemma RowsOfCollapsed(size: int, blocks: int)
    ensures NodeRows(Some(FAN_OUT_OF_ONE), RootWithLeaf(size, blocks))
            == [CollapsedRow(RootWithLeaf(size, blocks), FanOut)]
  {
    var n := RootWithLeaf(size, blocks);
    assert DirectoriesAmong(n.items[..0]) == 0 && DirectoriesAmong(n.items) == 1;
  }

  /** Of any two scans of one tree, a row of the first that took space and is folded in the second
      is called deleted by the fast query, and hidden by the full difference. */
  lemma FoldedIsCalledDeleted(p: Policy, q: Policy, n: Node, previous: Table, current: Table, maxDepth: int,
                              path: Bytes)
    requires WellShaped(n) && Tabulates(previous, NodeRows(p, n)) && Tabulates(current, NodeRows(q, n))
    requires path in previous && path !in current
    requires InWindow(previous[path].facts.depth, maxDepth) && previous[path].facts.totals.diskBytes > 0
    ensures path in FastRows(previous, current, maxDepth, Shrink) && path in DiffOf(previous, current, true)
    ensures FastRows(previous, current, maxDepth, Shrink)[path].classification == Deleted
    ensures DiffOf(previous, current, true)[path].classification == HiddenByCollapse
  {
    ScansAgreeOnDepths(p, q, n, n, previous, current);
    FastRowAgrees(previous, current, maxDepth, Shrink, path);
    FoldingIsNotChange(p, q, n, previous, current, path);
  }

  lemma FoldedTree(size: int, blocks: int) returns (previous: Table, current: Table, path: Bytes)
    requires blocks > 0
    ensures WellShaped(RootWithLeaf(size, blocks))
    ensures Tabulates(previous, NodeRows(None, RootWithLeaf(size, blocks)))
    ensures Tabulates(current, NodeRows(Some(FAN_OUT_OF_ONE), RootWithLeaf(size, blocks)))
    ensures path in previous && path !in current && InWindow(previous[path].facts.depth, 3)
    ensures previous[path].facts.totals.diskBytes > 0
  {
    var n := RootWithLeaf(size, blocks);
    RootIsShaped(size, blocks);
    RowsWithoutPolicy(size, blocks);
    RowsOfCollapsed(size, blocks);
    var leaf, root, collapsed := PlainRow(Leaf(size, blocks)), PlainRow(n), CollapsedRow(n, FanOut);
    path := leaf.path;
    previous := map[path := leaf, ROOT := root];
    current := map[ROOT := collapsed];
    JoinParent(ROOT, NAME);
    assert NodeTotals(Leaf(size, blocks)) == OwnTotals(DirectoryStat(Key(0, 1), size, blocks));
  }

  /** There is such a tree: in the second scan its root collapses. */
  lemma HiddenCanBeCalledDeleted() returns (n: Node, p: Policy, q: Policy, previous: Table, current: Table, path: Bytes)
    ensures WellShaped(n) && Tabulates(previous, NodeRows(p, n)) && Tabulates(current, NodeRows(q, n))
    ensures path in FastRows(previous, current, 3, Shrink) && path in DiffOf(previous, current, true)
    ensures FastRows(previous, current, 3, Shrink)[path].classification == Deleted
    ensures DiffOf(previous, current, true)[path].classification == HiddenByCollapse
  {
    n, p, q := RootWithLeaf(0, 8), None, Some(FAN_OUT_OF_ONE);
    previous, current, path := FoldedTree(0, 8);
    FoldedIsCalledDeleted(p, q, n, previous, current, 3, path);
  }

  // ----- a directory that grew on disk while its files shrank

  /** The table of a scan of the tree without a policy. */
  function TreeTable(size: int, blocks: int): Table {
    map[Leaf(size, blocks).path := PlainRow(Leaf(size, blocks)), ROOT := PlainRow(RootWithLeaf(size, blocks))]
  }

  lemma TreeIsTabulated(size: int, blocks: int)
    ensures Leaf(size, blocks).path != ROOT
    ensures Tabulates(TreeTable(size, blocks), NodeRows(None, RootWithLeaf(size, blocks)))
  {
    JoinParent(ROOT, NAME);
    RowsWithoutPolicy(size, blocks);
  }

  lemma TreeTableHolds(size: int, blocks: int)
    ensures HoldsLeaf(TreeTable(size, blocks), Join(ROOT, NAME), Sizes(blocks * BYTES_PER_BLOCK, size))
  {
    TreeIsTabulated(size, blocks);
    assert NodeTotals(Leaf(size, blocks)) == OwnTotals(DirectoryStat(Key(0, 1), size, blocks));
  }

  predicate HoldsLeaf(t: Table, path: Bytes, sizes: Sizes) {
    t.Keys == {path, ROOT} && path != ROOT && t[ROOT].facts.depth == 0 && t[path].facts.depth == 1 &&
    SizesOf(At(t, path)) == sizes
  }

  /** The fast query returns this row and no other. */
  predicate Returns(previous: Table, current: Table, direction: Direction, x: GrowthRow) {
    var fast := FastRows(previous, current, 3, direction);
    fast.Keys == {x.path} && GrowthRowOf(x.scope, fast[x.path]) == x
  }

  lemma GrownLeafIsReturned(scope: Scope, direction: Direction, previous: Table, current: Table)
    requires HoldsLeaf(previous, Join(ROOT, NAME), Sizes(0, 1))
    requires HoldsLeaf(current, Join(ROOT, NAME), Sizes(LARGE_BLOCKS * BYTES_PER_BLOCK, 0))
    ensures Returns(previous, current, direction, GrownLeaf(scope))
  {
    var path := Join(ROOT, NAME);
    var fast := FastRows(previous, current, 3, direction);
    assert path in fast && fast.Keys <= {path};
  }

  /** 600 MiB in blocks. */
  const LARGE_BLOCKS := 600 * MIB / BYTES_PER_BLOCK

  /** The row that both queries return for it. */
  function GrownLeaf(scope: Scope): GrowthRow {
    GrowthRow(scope, Join(ROOT, NAME), 1, Grown, LARGE_BLOCKS * BYTES_PER_BLOCK, -1)
  }

  /** Both fast queries return that row, and no other, for two scans between which the directory took
      600 MiB of blocks and lost one byte of size; the pairing then pairs it with itself. */
  lemma GrownRowIsPairedWithItself(scope: Scope)
    returns (previous: Table, current: Table, s: seq<Suspicion>)
    ensures Tabulates(previous, NodeRows(None, RootWithLeaf(1, 0)))
    ensures Tabulates(current, NodeRows(None, RootWithLeaf(0, LARGE_BLOCKS)))
    ensures forall direction :: Returns(previous, current, direction, GrownLeaf(scope))
    ensures Pairs([GrownLeaf(scope)], [GrownLeaf(scope)], s) && !UsesRowsOnce(s)
    ensures |s| == 1 && s[0].positive == s[0].negative == GrownLeaf(scope)
  {
    previous, current := TreeTable(1, 0), TreeTable(0, LARGE_BLOCKS);
    TreeIsTabulated(1, 0);
    TreeIsTabulated(0, LARGE_BLOCKS);
    TreeTableHolds(1, 0);
    TreeTableHolds(0, LARGE_BLOCKS);
    forall direction
      ensures Returns(previous, current, direction, GrownLeaf(scope))
    {
      GrownLeafIsReturned(scope, direction, previous, current);
    }
    GrownLeafCanPair(scope);
    PairsWithItself(GrownLeaf(scope));
    s := [SelfPair(GrownLeaf(scope))];
  }

  lemma GrownLeafCanPair(scope: Scope)
    ensures CanPair(GrownLeaf(scope))
  {
    JoinParent(ROOT, NAME);
  }
}
