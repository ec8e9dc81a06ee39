/** The depth-limited growth and shrink queries, against the full difference. */
module FastDelta {
  import opened Models
  import opened Tables
  import opened Dominance
  import opened Diff
  import opened FoldingDiff

  datatype Direction = Growth | Shrink

  predicate InWindow(depth: int, maxDepth: int) {
    1 <= depth <= 3 && depth <= maxDepth
  }

  // ----- what the query reads

  /** One side of the query: intervals when the snapshot is complete, and diagnostic rows in any case. */
  function FastStates(t: Tables, id: SnapshotId, root: Root, complete: bool, maxDepth: int): set<StateRow> {
    (if complete then (set e | e in CoveringStates(t.intervals, root, id) && InWindow(e.state.facts.depth, maxDepth))
     else {}) +
    (set e | e in DiagnosticStates(t.diagnostics, id) && InWindow(e.state.facts.depth, maxDepth))
  }

  /** A complete snapshot has no diagnostic rows, so the query reads what every other report reads,
      within its depths. */
  lemma FastReadsSnapshotState(t: Tables, id: SnapshotId, maxDepth: int)
    requires Coherent(t) && id in t.snapshots
    ensures FastStates(t, id, t.snapshots[id].rootPath, t.snapshots[id].status == Complete, maxDepth)
            == set e | e in SnapshotState(t, id) && InWindow(e.state.facts.depth, maxDepth)
  {
    assert t.snapshots[id].status == Complete ==> forall k :: k in t.diagnostics ==> k.snapshotId != id;
  }

  /** Restricting the stored states to the depths restricts the rows to them. */
  lemma DecodeWithin(paths: map<PathId, Bytes>, states: set<StateRow>, maxDepth: int)
    ensures DecodeAll(paths, set e | e in states && InWindow(e.state.facts.depth, maxDepth))
            == set r | r in DecodeAll(paths, states) && InWindow(r.facts.depth, maxDepth)
  {
  }

  // ----- what the query returns, before its limit

  function Within(t: Table, maxDepth: int): Table {
    map path | path in t && InWindow(t[path].facts.depth, maxDepth) :: t[path]
  }

  predicate Moves(direction: Direction, before: Sizes, after: Sizes) {
    match direction
    case Growth => after.disk > before.disk || after.apparent > before.apparent
    case Shrink => after.disk < before.disk || after.apparent < before.apparent
  }

  datatype FastRow = FastRow(path: Bytes, depth: int, classification: Classification, previous: Sizes, current: Sizes)

  function FastRowOf(path: Bytes, previous: Option<DirectoryAggregate>, current: Option<DirectoryAggregate>): FastRow
    requires previous.Some? || current.Some?
  {
    FastRow(path, (if current.Some? then current.value else previous.value).facts.depth,
            RawClassification(previous, current), SizesOf(previous), SizesOf(current))
  }

  /** The rows of the query, from what it read on both sides. */
  function FastJoin(before: Table, after: Table, direction: Direction): map<Bytes, FastRow> {
    map path | path in before.Keys + after.Keys && Moves(direction, SizesOf(At(before, path)), SizesOf(At(after, path)))
      :: FastRowOf(path, At(before, path), At(after, path))
  }

  lemma JoinedMoves(before: Table, after: Table, direction: Direction, path: Bytes)
    requires path in FastJoin(before, after, direction)
    ensures
      var row := FastJoin(before, after, direction)[path];
      Moves(direction, row.previous, row.current)
  {
  }

  function FastRows(previous: Table, current: Table, maxDepth: int, direction: Direction): map<Bytes, FastRow> {
    FastJoin(Within(previous, maxDepth), Within(current, maxDepth), direction)
  }

  /** The full row as the fast query shows it: it does not know what a collapse hides. */
  function Shown(row: DiffRow): FastRow {
    FastRow(row.path, row.depth, if row.classification == HiddenByCollapse then Deleted else row.classification,
            row.previous, row.current)
  }

  lemma FastMember(previous: Table, current: Table, maxDepth: int, direction: Direction, path: Bytes)
    requires DepthsAgree(previous, current)
    ensures
      var fast := FastRows(previous, current, maxDepth, direction);
      var p, q := At(previous, path), At(current, path);
      (path in fast <==> path in previous.Keys + current.Keys && InWindow(QueryRow(path, p, q).depth, maxDepth) &&
                         Moves(direction, SizesOf(p), SizesOf(q))) &&
      (path in fast ==> fast[path] == FastRowOf(path, p, q))
  {
  }

  lemma FastRowAgrees(previous: Table, current: Table, maxDepth: int, direction: Direction, path: Bytes)
    requires DepthsAgree(previous, current)
    ensures
      var full := DiffOf(previous, current, true);
      var fast := FastRows(previous, current, maxDepth, direction);
      (path in fast <==> path in full && InWindow(full[path].depth, maxDepth) &&
                         Moves(direction, full[path].previous, full[path].current)) &&
      (path in fast ==> fast[path] == Shown(full[path]))
  {
    FastMember(previous, current, maxDepth, direction, path);
  }

  /** The fast query is the full difference, filtered by depth and direction. */
  lemma FastQueryFiltersDiff(previous: Table, current: Table, maxDepth: int, direction: Direction)
    requires DepthsAgree(previous, current)
    ensures
      var full := DiffOf(previous, current, true);
      FastRows(previous, current, maxDepth, direction)
      == map path | path in full && InWindow(full[path].depth, maxDepth) &&
                    Moves(direction, full[path].previous, full[path].current) :: Shown(full[path])
  {
    forall path
      ensures
        var full := DiffOf(previous, current, true);
        var fast := FastRows(previous, current, maxDepth, direction);
        (path in fast <==> path in full && InWindow(full[path].depth, maxDepth) &&
                           Moves(direction, full[path].previous, full[path].current)) &&
        (path in fast ==> fast[path] == Shown(full[path]))
    {
      FastRowAgrees(previous, current, maxDepth, direction, path);
    }
  }

  /** The depths of the fast queries. */
  predicate IsShallow(row: DiffRow, maxDepth: int) {
    1 <= row.depth <= 3 && row.depth <= maxDepth
  }

  /** A path of the full difference is in the growth rows exactly when it is shallow and took disk bytes
      or apparent bytes, and in the shrink rows exactly when it is shallow and lost some of either. */
  lemma FastRowIff(previous: Table, current: Table, maxDepth: int, path: Bytes)
    requires DepthsAgree(previous, current) && path in DiffOf(previous, current, true)
    ensures
      var row := DiffOf(previous, current, true)[path];
      (path in FastRows(previous, current, maxDepth, Growth) <==>
        IsShallow(row, maxDepth) && (row.DiskDelta() > 0 || row.ApparentDelta() > 0)) &&
      (path in FastRows(previous, current, maxDepth, Shrink) <==>
        IsShallow(row, maxDepth) && (row.DiskDelta() < 0 || row.ApparentDelta() < 0))
  {
    FastRowAgrees(previous, current, maxDepth, Growth, path);
    FastRowAgrees(previous, current, maxDepth, Shrink, path);
  }

  /** So no shallow row that the full difference calls grown or shrunk is missing. */
  lemma NothingIsMissing(previous: Table, current: Table, maxDepth: int, path: Bytes)
    requires DepthsAgree(previous, current) && path in DiffOf(previous, current, true)
    requires IsShallow(DiffOf(previous, current, true)[path], maxDepth)
    ensures
      var row := DiffOf(previous, current, true)[path];
      (row.classification == Grown ==> path in FastRows(previous, current, maxDepth, Growth)) &&
      (row.classification == Shrunk ==> path in FastRows(previous, current, maxDepth, Shrink))
  {
    FastRowIff(previous, current, maxDepth, path);
    ClassificationMeans(previous, current, path);
  }

  predicate NotNegative(t: Table) {
    forall p :: p in t ==> t[p].facts.totals.diskBytes >= 0 && t[p].facts.totals.apparentBytes >= 0
  }

  /** Growth rows have the classification of the full difference: nothing that grew is gone. */
  lemma GrowthKeepsClassification(previous: Table, current: Table, maxDepth: int, path: Bytes)
    requires DepthsAgree(previous, current) && NotNegative(previous)
    requires path in FastRows(previous, current, maxDepth, Growth)
    ensures
      path in DiffOf(previous, current, true) &&
      FastRows(previous, current, maxDepth, Growth)[path].classification
      == DiffOf(previous, current, true)[path].classification
  {
    FastRowAgrees(previous, current, maxDepth, Growth, path);
    ClassificationMeans(previous, current, path);
  }

  /** A fast row differs from the full one in its classification exactly when the path is gone and
      below a directory that is collapsed now: the fast query calls that deleted. */
  lemma FastClassificationDiffersIff(previous: Table, current: Table, maxDepth: int, direction: Direction, path: Bytes)
    requires DepthsAgree(previous, current) && path in FastRows(previous, current, maxDepth, direction)
    ensures path in DiffOf(previous, current, true)
    ensures
      FastRows(previous, current, maxDepth, direction)[path].classification
      != DiffOf(previous, current, true)[path].classification <==>
      path in previous && path !in current && BelowAny(path, CollapsedPaths(current))
  {
    FastRowAgrees(previous, current, maxDepth, direction, path);
    CollapsedEitherWay(previous, current);
  }
}
