/** What the fast report does with the rows that its two queries return of stored scans. */
module FastReport {
  import opened Models
  import opened Tables
  import opened Operations
  import opened Ordering
  import opened Dominance
  import opened Frontier
  import opened FrontierScopes
  import opened FastFilter
  import opened FastDelta
  import opened StoredDiff
  import opened Walk
  import opened ScanShape
  import opened Collapse
  import opened DomainScan
  import opened Relocation
  import opened RelocationSides

  function GrowthRowOf(scope: Scope, r: FastRow): GrowthRow {
    GrowthRow(scope, r.path, r.depth, r.classification, r.current.disk - r.previous.disk,
              r.current.apparent - r.previous.apparent)
  }

  /** The query of that direction returns the row for the snapshots of its scope. */
  ghost predicate IsFastRow(t: Tables, maxDepth: int, direction: Direction, r: GrowthRow) {
    var a, b := r.scope.baseline, r.scope.current;
    a in t.snapshots && b in t.snapshots &&
    OnePerPath(FastRead(t, a, maxDepth)) && OnePerPath(FastRead(t, b, maxDepth)) &&
    var fast := FastJoin(TableOf(FastRead(t, a, maxDepth)), TableOf(FastRead(t, b, maxDepth)), direction);
    r.path in fast && r == GrowthRowOf(r.scope, fast[r.path])
  }

  ghost predicate AreFastRows(t: Tables, maxDepth: int, direction: Direction, rows: seq<GrowthRow>) {
    forall r :: r in rows ==> IsFastRow(t, maxDepth, direction, r)
  }

  /** The snapshot reads the rows of a scan of sane sizes. */
  ghost predicate StoresScan(t: Tables, id: SnapshotId) {
    id in t.snapshots &&
    exists p: Policy, n: Node :: WellShaped(n) && NonNegative(n) && Rows(t, id) == Members(NodeRows(p, n))
  }

  lemma RowIsNotNegative(p: Policy, n: Node, r: DirectoryAggregate)
    requires WellShaped(n) && NonNegative(n) && r in NodeRows(p, n)
    ensures r.facts.totals.diskBytes >= 0
  {
    RowComesFrom(p, n, r);
    var m :| m in Subtree(n) && !IsFolded(p, n, m.path) && NodeRow(p, m) == r;
    SubtreeIsNotNegative(n, m);
    NodeIsNotNegative(Domains.DiskBytes, m);
    RowNumbers(p, m);
  }

  lemma StoredIsNotNegative(t: Tables, id: SnapshotId, maxDepth: int, r: DirectoryAggregate)
    requires Coherent(t) && StoresScan(t, id) && r in FastRead(t, id, maxDepth)
    ensures r.facts.totals.diskBytes >= 0
  {
    FastReadsSnapshotState(t, id, maxDepth);
    var p: Policy, n: Node :| WellShaped(n) && NonNegative(n) && Rows(t, id) == Members(NodeRows(p, n));
    assert r in Rows(t, id);
    RowIsNotNegative(p, n, r);
  }

  // ----- the filter of dominated rows

  /** A row that grew on disk is classified so. */
  lemma GrownIsClassified(t: Tables, maxDepth: int, direction: Direction, r: GrowthRow)
    requires Coherent(t) && IsFastRow(t, maxDepth, direction, r) && StoresScan(t, r.scope.baseline)
    requires r.diskDelta > 0
    ensures r.classification == Created || r.classification == Grown
  {
    var before := TableOf(FastRead(t, r.scope.baseline, maxDepth));
    if r.path in before {
      StoredIsNotNegative(t, r.scope.baseline, maxDepth, before[r.path]);
    }
  }

  /** On what the fast growth query returns of stored scans, in any order and up to any limit, the fast
      filter keeps of the rows that grew on disk exactly the survivors of the frontier. */
  lemma FastReportKeepsSurvivors(t: Tables, maxDepth: int, rows: seq<GrowthRow>)
    requires Coherent(t) && AreFastRows(t, maxDepth, Growth, rows)
    requires forall r :: r in rows ==> StoresScan(t, r.scope.baseline)
    ensures GrownRows(Filter(NotFastDominated(rows), rows)) == Survivors(Positive(rows), Positive(rows))
  {
    forall r | r in rows && r.diskDelta > 0
      ensures r.classification == Created || r.classification == Grown
    {
      GrownIsClassified(t, maxDepth, Growth, r);
    }
    FastFilterKeepsFrontierSurvivors(rows);
  }

  // ----- the pairing of growth with shrinkage

  /** The two queries agree on the rows they share. */
  lemma FastListsAgree(t: Tables, maxDepth: int, growths: seq<GrowthRow>, shrinks: seq<GrowthRow>)
    requires AreFastRows(t, maxDepth, Growth, growths) && AreFastRows(t, maxDepth, Shrink, shrinks)
    ensures Agree(growths, shrinks)
  {
  }

  /** The shrink query returns a row that did not lose disk bytes only for its apparent bytes. */
  lemma ShrinkRowMeans(t: Tables, maxDepth: int, r: GrowthRow)
    requires IsFastRow(t, maxDepth, Shrink, r)
    ensures r.diskDelta < 0 || r.apparentDelta < 0
  {
    JoinedMoves(TableOf(FastRead(t, r.scope.baseline, maxDepth)), TableOf(FastRead(t, r.scope.current, maxDepth)),
                Shrink, r.path);
  }

  /** On what the two queries return, no row is in two places and every pair names a row that shrank,
      unless a large row grew on disk while its apparent bytes shrank. */
  lemma FastPairsAreSound(t: Tables, maxDepth: int, growths: seq<GrowthRow>, shrinks: seq<GrowthRow>,
                          s: seq<Suspicion>)
    requires AreFastRows(t, maxDepth, Growth, growths) && AreFastRows(t, maxDepth, Shrink, shrinks)
    requires UniquePaths(growths) && Pairs(growths, shrinks, s)
    requires forall n :: n in shrinks && n.apparentDelta < 0 ==> n.diskDelta < RELOCATION_MIN_BYTES
    ensures UsesRowsOnce(s) && NamesShrinks(s)
  {
    FastListsAgree(t, maxDepth, growths, shrinks);
    forall n | n in shrinks && IsLargeShrink(n)
      ensures n.diskDelta < 0
    {
      ShrinkRowMeans(t, maxDepth, n);
    }
    OnlyShrinksIsSound(growths, shrinks, s);
  }
}
