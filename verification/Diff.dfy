/** The full difference of two snapshots, path by path. */
module Diff {
  import opened Models
  import opened Paths
  import opened Dominance

  /** The rows of a snapshot by path. */
  type Table = map<Bytes, DirectoryAggregate>

  function At(t: Table, path: Bytes): Option<DirectoryAggregate> {
    if path in t then Some(t[path]) else None
  }

  datatype Sizes = Sizes(disk: int, apparent: int)

  function SizesOf(row: Option<DirectoryAggregate>): Sizes {
    if row.None? then Sizes(0, 0) else Sizes(row.value.facts.totals.diskBytes, row.value.facts.totals.apparentBytes)
  }

  datatype DiffRow = DiffRow(
    path: Bytes,
    parentPath: Option<Bytes>,
    depth: int,
    classification: Classification,
    previous: Sizes,
    current: Sizes,
    error: Option<RowError>,
    collapsed: bool,
    currentExists: bool)
  {
    function DiskDelta(): int { current.disk - previous.disk }

    function ApparentDelta(): int { current.apparent - previous.apparent }
  }

  function Coalesce<T>(a: Option<T>, b: Option<T>): Option<T> {
    if a.Some? then a else b
  }

  /** The CASE expression of the query: disk bytes decide before apparent bytes. */
  function RawClassification(previous: Option<DirectoryAggregate>, current: Option<DirectoryAggregate>):
    Classification
  {
    var before, after := SizesOf(previous), SizesOf(current);
    if previous.None? then Created
    else if current.None? then Deleted
    else if after.disk > before.disk then Grown
    else if after.disk < before.disk then Shrunk
    else if after.apparent > before.apparent then Grown
    else if after.apparent < before.apparent then Shrunk
    else Unchanged
  }

  function QueryRow(path: Bytes, previous: Option<DirectoryAggregate>, current: Option<DirectoryAggregate>): DiffRow
    requires previous.Some? || current.Some?
  {
    var row := if current.Some? then current.value else previous.value;
    var parent := Coalesce(if current.Some? then current.value.parentPath else None,
                           if previous.Some? then previous.value.parentPath else None);
    var error := Coalesce(if current.Some? then current.value.facts.error else None,
                          if previous.Some? then previous.value.facts.error else None);
    DiffRow(path, parent, row.facts.depth, RawClassification(previous, current), SizesOf(previous), SizesOf(current),
            error, row.facts.collapsed, current.Some?)
  }

  /** The WHERE clause that leaves unchanged rows out. */
  predicate PassesFilter(previous: Option<DirectoryAggregate>, current: Option<DirectoryAggregate>,
                         includeUnchanged: bool)
  {
    includeUnchanged || previous.None? || current.None? || SizesOf(previous) != SizesOf(current)
  }

  function Fetch(previous: Table, current: Table, includeUnchanged: bool): map<Bytes, DiffRow> {
    map path | path in previous.Keys + current.Keys &&
               PassesFilter(At(previous, path), At(current, path), includeUnchanged)
      :: QueryRow(path, At(previous, path), At(current, path))
  }

  /** The collapsed directories of the current snapshot, from the fetched rows. */
  function CollapsedAmong(rows: map<Bytes, DiffRow>): set<Bytes> {
    set path | path in rows && rows[path].currentExists && rows[path].collapsed
  }

  /** The same, from a query of its own. */
  function CollapsedPaths(current: Table): set<Bytes> {
    set path | path in current && current[path].facts.collapsed
  }

  predicate BelowAny(path: Bytes, collapsed: set<Bytes>) {
    exists a {:trigger IsBelow(path, a)} :: a in collapsed && IsBelow(path, a)
  }

  function Classify(row: DiffRow, collapsed: set<Bytes>): Classification {
    if row.classification == Deleted && BelowAny(row.path, collapsed) then HiddenByCollapse else row.classification
  }

  function ClassifyAll(fetched: map<Bytes, DiffRow>, collapsed: set<Bytes>): map<Bytes, DiffRow> {
    map path | path in fetched :: fetched[path].(classification := Classify(fetched[path], collapsed))
  }

  function DiffOf(previous: Table, current: Table, includeUnchanged: bool): map<Bytes, DiffRow> {
    var fetched := Fetch(previous, current, includeUnchanged);
    ClassifyAll(fetched, if includeUnchanged then CollapsedAmong(fetched) else CollapsedPaths(current))
  }

  /** The walk over the ancestors of a path that is gone. */
  method HasCurrentCollapsedAncestor(path: Bytes, collapsed: set<Bytes>) returns (hidden: bool)
    ensures hidden == BelowAny(path, collapsed)
  {
    var ancestor := ParentOf(path);
    while ancestor.Some?
      invariant ancestor.Some? ==> IsBelow(path, ancestor.value)
      invariant forall a :: IsBelow(path, a) && a in collapsed ==>
                  ancestor.Some? && (a == ancestor.value || IsBelow(ancestor.value, a))
      decreases if ancestor.Some? then 1 + |ancestor.value| else 0
    {
      if ancestor.value in collapsed {
        return true;
      }
      var parent := ParentOf(ancestor.value);
      if parent.Some? {
        BelowIsTransitive(path, ancestor.value, parent.value);
      }
      ancestor := parent;
    }
    return false;
  }

  method ClassifyRow(row: DiffRow, collapsed: set<Bytes>) returns (classified: DiffRow)
    ensures classified == row.(classification := Classify(row, collapsed))
  {
    classified := row;
    if row.classification == Deleted {
      var hidden := HasCurrentCollapsedAncestor(row.path, collapsed);
      if hidden {
        classified := row.(classification := HiddenByCollapse);
      }
    }
  }

  method ClassifyRows(fetched: map<Bytes, DiffRow>, collapsed: set<Bytes>) returns (rows: map<Bytes, DiffRow>)
    ensures rows == ClassifyAll(fetched, collapsed)
  {
    rows := map[];
    var left := fetched.Keys;
    while left != {}
      invariant left <= fetched.Keys && rows.Keys == fetched.Keys - left
      invariant forall path :: path in rows ==> rows[path] == ClassifyAll(fetched, collapsed)[path]
    {
      var path :| path in left;
      var row := ClassifyRow(fetched[path], collapsed);
      rows := rows[path := row];
      left := left - {path};
    }
  }

  method QueryDiffRows(previous: Table, current: Table, includeUnchanged: bool) returns (rows: map<Bytes, DiffRow>)
    ensures rows == DiffOf(previous, current, includeUnchanged)
  {
    var fetched := Fetch(previous, current, includeUnchanged);
    var collapsed := if includeUnchanged then CollapsedAmong(fetched) else CollapsedPaths(current);
    rows := ClassifyRows(fetched, collapsed);
  }

  // ----- leaving unchanged rows out

  /** Both ways of finding the collapsed directories find the same ones. */
  lemma CollapsedEitherWay(previous: Table, current: Table)
    ensures CollapsedAmong(Fetch(previous, current, true)) == CollapsedPaths(current)
  {
  }

  lemma PassesIffChanged(previous: Option<DirectoryAggregate>, current: Option<DirectoryAggregate>)
    ensures PassesFilter(previous, current, false) <==> RawClassification(previous, current) != Unchanged
  {
  }

  lemma ShortRow(previous: Table, current: Table, path: Bytes)
    ensures
      var full, short := DiffOf(previous, current, true), DiffOf(previous, current, false);
      (path in short <==> path in full && full[path].classification != Unchanged) &&
      (path in short ==> short[path] == full[path])
  {
    CollapsedEitherWay(previous, current);
    PassesIffChanged(At(previous, path), At(current, path));
  }

  /** The short form is the full form without its unchanged rows, with the same classifications. */
  lemma ShortFormDropsUnchanged(previous: Table, current: Table)
    ensures
      var full := DiffOf(previous, current, true);
      DiffOf(previous, current, false)
      == map path | path in full && full[path].classification != Unchanged :: full[path]
  {
    forall path
      ensures
        var full, short := DiffOf(previous, current, true), DiffOf(previous, current, false);
        (path in short <==> path in full && full[path].classification != Unchanged) &&
        (path in short ==> short[path] == full[path])
    {
      ShortRow(previous, current, path);
    }
  }

  /** What a classification says about the two snapshots. */
  lemma ClassificationMeans(previous: Table, current: Table, path: Bytes)
    requires path in DiffOf(previous, current, true)
    ensures
      var row := DiffOf(previous, current, true)[path];
      (row.classification == Created <==> path !in previous) &&
      (row.classification == Deleted || row.classification == HiddenByCollapse <==> path !in current) &&
      (row.classification == HiddenByCollapse <==>
        path !in current && exists a :: a in current && current[a].facts.collapsed && IsBelow(path, a)) &&
      (row.classification == Grown ==> row.DiskDelta() > 0 || (row.DiskDelta() == 0 && row.ApparentDelta() > 0)) &&
      (row.classification == Shrunk ==> row.DiskDelta() < 0 || (row.DiskDelta() == 0 && row.ApparentDelta() < 0)) &&
      (row.classification == Unchanged ==> row.DiskDelta() == 0 && row.ApparentDelta() == 0)
  {
    CollapsedEitherWay(previous, current);
  }

  /** The columns of a row: from the current snapshot when it has the path, else from the previous one; a
      parent or an error that one of them lacks is taken from the other; what is absent has no bytes. */
  lemma ColumnsMean(previous: Table, current: Table, path: Bytes)
    requires path in DiffOf(previous, current, true)
    ensures
      var row := DiffOf(previous, current, true)[path];
      (path in current ==>
        row.currentExists && row.depth == current[path].facts.depth && row.collapsed == current[path].facts.collapsed &&
        row.current.disk == current[path].facts.totals.diskBytes &&
        row.current.apparent == current[path].facts.totals.apparentBytes &&
        (current[path].parentPath.Some? ==> row.parentPath == current[path].parentPath) &&
        (current[path].facts.error.Some? ==> row.error == current[path].facts.error)) &&
      (path in previous ==>
        row.previous.disk == previous[path].facts.totals.diskBytes &&
        row.previous.apparent == previous[path].facts.totals.apparentBytes) &&
      (path !in current ==>
        !row.currentExists && row.depth == previous[path].facts.depth && row.current == Sizes(0, 0) &&
        row.collapsed == previous[path].facts.collapsed && row.parentPath == previous[path].parentPath &&
        row.error == previous[path].facts.error) &&
      (path in current && path in previous ==>
        (current[path].parentPath.None? ==> row.parentPath == previous[path].parentPath) &&
        (current[path].facts.error.None? ==> row.error == previous[path].facts.error)) &&
      (path !in previous ==> row.previous == Sizes(0, 0))
  {
  }
}
