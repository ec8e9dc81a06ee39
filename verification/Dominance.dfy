/** The growth frontier as a set: the topmost rows that no deeper row nearly explains. */
module Dominance {
  import opened Models
  import opened Paths

  datatype Classification = Created | Deleted | Grown | Shrunk | Unchanged | HiddenByCollapse

  /** One comparison of two snapshots of a root. */
  datatype Scope = Scope(rootPath: Bytes, baseline: SnapshotId, current: SnapshotId)

  datatype GrowthRow = GrowthRow(
    scope: Scope,
    path: Bytes,
    depth: int,
    classification: Classification,
    diskDelta: int,
    apparentDelta: int)

  /** Within a scope every path has one row. */
  predicate UniquePaths(rows: seq<GrowthRow>) {
    forall i, j {:trigger Differ(rows, i, j)} :: 0 <= i < j < |rows| ==> Differ(rows, i, j)
  }

  predicate Differ(rows: seq<GrowthRow>, i: int, j: int)
    requires 0 <= i < |rows| && 0 <= j < |rows|
  {
    rows[i].scope != rows[j].scope || rows[i].path != rows[j].path
  }

  /** The largest growth first. */
  predicate LargestFirst(rows: seq<GrowthRow>) {
    forall i, j {:trigger AtLeast(rows, i, j)} :: 0 <= i < j < |rows| ==> AtLeast(rows, i, j)
  }

  predicate AtLeast(rows: seq<GrowthRow>, i: int, j: int)
    requires 0 <= i < |rows| && 0 <= j < |rows|
  {
    rows[i].diskDelta >= rows[j].diskDelta
  }

  predicate Below(d: GrowthRow, a: GrowthRow) {
    d.scope == a.scope && IsBelow(d.path, a.path)
  }

  /** A dominance ratio of 0.95, exactly. */
  predicate Explains(d: GrowthRow, a: GrowthRow) {
    d.diskDelta * 100 >= a.diskDelta * 95
  }

  predicate Beats(d: GrowthRow, a: GrowthRow) {
    Below(d, a) && Explains(d, a)
  }

  /** A row below it accounts for nearly all of its growth. */
  predicate Dominated(rows: seq<GrowthRow>, a: GrowthRow) {
    exists d {:trigger Beats(d, a)} :: d in rows && Beats(d, a)
  }

  predicate Survives(rows: seq<GrowthRow>, r: GrowthRow) {
    r in rows && !Dominated(rows, r)
  }

  predicate OnFrontier(rows: seq<GrowthRow>, r: GrowthRow) {
    Survives(rows, r) && forall a {:trigger Below(r, a)} :: a in rows && Below(r, a) ==> Dominated(rows, a)
  }

  predicate Comparable(r: GrowthRow, f: GrowthRow) {
    r == f || Below(r, f) || Below(f, r)
  }

  lemma SamePathSameRow(rows: seq<GrowthRow>, a: GrowthRow, b: GrowthRow)
    requires UniquePaths(rows) && a in rows && b in rows && a.scope == b.scope && a.path == b.path
    ensures a == b
  {
    var i :| 0 <= i < |rows| && rows[i] == a;
    var j :| 0 <= j < |rows| && rows[j] == b;
    assert i < j ==> Differ(rows, i, j);
    assert j < i ==> Differ(rows, j, i);
  }

  lemma BelowTransitive(d: GrowthRow, m: GrowthRow, a: GrowthRow)
    requires Below(d, m) && Below(m, a)
    ensures Below(d, a)
  {
    BelowIsTransitive(d.path, m.path, a.path);
  }

  /** No row of the frontier is below another. */
  lemma FrontierIsAntichain(rows: seq<GrowthRow>, r: GrowthRow, f: GrowthRow)
    requires OnFrontier(rows, r) && OnFrontier(rows, f)
    ensures !Below(r, f) && !Below(f, r)
  {
  }

  /** What survives is on the frontier or below a row of it. */
  lemma {:induction false} SurvivorIsCovered(rows: seq<GrowthRow>, r: GrowthRow) returns (f: GrowthRow)
    requires Survives(rows, r)
    ensures OnFrontier(rows, f) && (r == f || Below(r, f))
    decreases |r.path|
  {
    if OnFrontier(rows, r) {
      f := r;
    } else {
      var a :| a in rows && Below(r, a) && !Dominated(rows, a);
      f := SurvivorIsCovered(rows, a);
      if a != f {
        BelowTransitive(r, a, f);
      }
    }
  }

  function LongestPath(rows: seq<GrowthRow>): (n: nat)
    ensures forall r :: r in rows ==> |r.path| <= n
  {
    if rows == [] then 0
    else
      var n := LongestPath(rows[..|rows| - 1]);
      var last := |rows[|rows| - 1].path|;
      if last > n then last else n
  }

  /** The frontier cannot be extended: every row is on it, below it or above it. */
  lemma {:induction false} EveryRowIsComparable(rows: seq<GrowthRow>, r: GrowthRow) returns (f: GrowthRow)
    requires UniquePaths(rows) && r in rows
    ensures OnFrontier(rows, f) && Comparable(r, f)
    decreases LongestPath(rows) - |r.path|
  {
    if Survives(rows, r) {
      f := SurvivorIsCovered(rows, r);
    } else {
      var d :| d in rows && Beats(d, r);
      f := EveryRowIsComparable(rows, d);
      BothAbove(rows, d, r, f);
    }
  }

  lemma BothAbove(rows: seq<GrowthRow>, d: GrowthRow, r: GrowthRow, f: GrowthRow)
    requires UniquePaths(rows) && r in rows && f in rows && Below(d, r) && Comparable(d, f)
    ensures Comparable(r, f)
  {
    if Below(f, d) {
      BelowTransitive(f, d, r);
    } else if Below(d, f) {
      AncestorsAreComparable(d.path, r.path, f.path);
      if r.path == f.path {
        SamePathSameRow(rows, r, f);
      }
    }
  }

  /** A survivor that is not on the frontier has exactly one row of the frontier above it. */
  lemma OneSuppressor(rows: seq<GrowthRow>, r: GrowthRow, f: GrowthRow, g: GrowthRow)
    requires UniquePaths(rows) && OnFrontier(rows, f) && OnFrontier(rows, g)
    requires r == f || Below(r, f)
    requires r == g || Below(r, g)
    ensures f == g
  {
    if Below(r, f) && Below(r, g) {
      AncestorsAreComparable(r.path, f.path, g.path);
      if f.path == g.path {
        SamePathSameRow(rows, f, g);
      } else {
        FrontierIsAntichain(rows, f, g);
      }
    } else {
      FrontierIsAntichain(rows, f, g);
    }
  }
}
