/** Indexed totals per storage domain: a row counts for its domain and is taken from the domain
    of the nearest indexed directory above it. */
module StorageDomains {
  import opened Models
  import opened Paths
  import opened Sums

  datatype DomainKey = DomainKey(majorMinor: string, root: Bytes, filesystemType: string, mountSource: string)

  datatype IndexedRow = IndexedRow(parentPath: Option<Bytes>, disk: int, apparent: int)

  /** The rows of one snapshot by path, and the domain of each path that resolves to a mount. */
  datatype Indexed = Indexed(rows: map<Bytes, IndexedRow>, domains: map<Bytes, DomainKey>)

  /** The first path on the walk that has a row. */
  function NearestIndexed(rows: map<Bytes, IndexedRow>, start: Option<Bytes>): (near: Option<Bytes>)
    ensures near.Some? ==> near.value in rows
    decreases if start.Some? then 1 + |start.value| else 0
  {
    if start.None? then None
    else if start.value in rows then start
    else NearestIndexed(rows, ParentOf(start.value))
  }

  /** It is the nearest of those at or above the start that have a row. */
  lemma {:induction false} NearestIsNearest(rows: map<Bytes, IndexedRow>, start: Bytes, q: Bytes)
    requires q in rows && (q == start || IsBelow(start, q))
    ensures
      var near := NearestIndexed(rows, Some(start));
      near.Some? && (near.value == start || IsBelow(start, near.value)) && (q == near.value || IsBelow(near.value, q))
    decreases |start|
  {
    if start !in rows {
      var parent := ParentOf(start).value;
      NearestIsNearest(rows, parent, q);
      var near := NearestIndexed(rows, Some(parent)).value;
      assert IsBelow(start, parent);
      if near != parent {
        BelowIsTransitive(start, parent, near);
      }
    }
  }

  function Above(x: Indexed, path: Bytes): (near: Option<Bytes>)
    requires path in x.rows
    ensures near.Some? ==> near.value in x.rows
  {
    NearestIndexed(x.rows, x.rows[path].parentPath)
  }

  function DomainOf(x: Indexed, path: Bytes): Option<DomainKey> {
    if path in x.domains then Some(x.domains[path]) else None
  }

  /** The domain of the nearest indexed directory, when that resolves. */
  function DomainAbove(x: Indexed, path: Bytes): Option<DomainKey>
    requires path in x.rows
  {
    var near := Above(x, path);
    if near.Some? then DomainOf(x, near.value) else None
  }

  datatype Measure = DiskBytes | ApparentBytes

  function Amount(x: Indexed, m: Measure, path: Bytes): int {
    if path !in x.rows then 0 else if m == DiskBytes then x.rows[path].disk else x.rows[path].apparent
  }

  // ----- what one row adds to a domain

  /** A row at a domain boundary is added to its domain and taken from the domain above. */
  function Flow(x: Indexed, m: Measure, d: DomainKey, path: Bytes): int {
    if path !in x.rows || DomainOf(x, path).None? || DomainAbove(x, path) == DomainOf(x, path) then 0
    else
      (if DomainOf(x, path) == Some(d) then Amount(x, m, path) else 0) -
      (if DomainAbove(x, path) == Some(d) then Amount(x, m, path) else 0)
  }

  function FlowInto(x: Indexed, m: Measure, d: DomainKey): Bytes -> int {
    path => Flow(x, m, d, path)
  }

  /** The bytes of c, when it resolves and r is the nearest indexed directory above it. */
  function Taken(x: Indexed, m: Measure, r: Bytes, c: Bytes): int {
    if c in x.rows && DomainOf(x, c).Some? && Above(x, c) == Some(r) then Amount(x, m, c) else 0
  }

  /** What a row holds beyond the resolved rows directly below it. */
  ghost function Exclusive(x: Indexed, m: Measure, r: Bytes): int {
    Amount(x, m, r) - SumOver(x.rows.Keys, TakenBy(x, m, r))
  }

  function TakenBy(x: Indexed, m: Measure, r: Bytes): Bytes -> int {
    c => Taken(x, m, r, c)
  }

  predicate InDomain(x: Indexed, d: DomainKey, r: Bytes) {
    DomainOf(x, r) == Some(d)
  }

  ghost function ExclusiveIn(x: Indexed, m: Measure, d: DomainKey): Bytes -> int {
    r => if InDomain(x, d, r) then Exclusive(x, m, r) else 0
  }

  function AmountIn(x: Indexed, m: Measure, d: DomainKey): Bytes -> int {
    r => if InDomain(x, d, r) then Amount(x, m, r) else 0
  }

  function TakenIn(x: Indexed, m: Measure, d: DomainKey): (Bytes, Bytes) -> int {
    (r, c) => if InDomain(x, d, r) then Taken(x, m, r, c) else 0
  }

  /** The bytes of c, when its nearest indexed directory is in the domain. */
  function TakenFrom(x: Indexed, m: Measure, d: DomainKey): Bytes -> int {
    c => if c in x.rows && DomainOf(x, c).Some? && DomainAbove(x, c) == Some(d) then Amount(x, m, c) else 0
  }

  lemma TakenOnce(x: Indexed, m: Measure, d: DomainKey, c: Bytes)
    requires c in x.rows
    ensures ColumnSum(TakenIn(x, m, d), x.rows.Keys)(c) == TakenFrom(x, m, d)(c)
  {
    var f := AtSecond(TakenIn(x, m, d), c);
    var near := Above(x, c);
    if near.Some? {
      SumSingle(x.rows.Keys, f, near.value);
    } else {
      SumZero(x.rows.Keys, f);
    }
  }

  lemma TakenByRow(x: Indexed, m: Measure, d: DomainKey, r: Bytes)
    ensures RowSum(TakenIn(x, m, d), x.rows.Keys)(r)
            == if InDomain(x, d, r) then SumOver(x.rows.Keys, TakenBy(x, m, r)) else 0
  {
    if InDomain(x, d, r) {
      SumSame(x.rows.Keys, At(TakenIn(x, m, d), r), TakenBy(x, m, r));
    } else {
      SumZero(x.rows.Keys, At(TakenIn(x, m, d), r));
    }
  }

  lemma FlowSplits(x: Indexed, m: Measure, d: DomainKey)
    ensures SumOver(x.rows.Keys, FlowInto(x, m, d))
            == SumOver(x.rows.Keys, AmountIn(x, m, d)) - SumOver(x.rows.Keys, TakenFrom(x, m, d))
  {
    SumDifference(x.rows.Keys, AmountIn(x, m, d), TakenFrom(x, m, d), FlowInto(x, m, d));
  }

  lemma ExclusiveSplits(x: Indexed, m: Measure, d: DomainKey)
    ensures SumOver(x.rows.Keys, ExclusiveIn(x, m, d))
            == SumOver(x.rows.Keys, AmountIn(x, m, d)) - SumOver(x.rows.Keys, RowSum(TakenIn(x, m, d), x.rows.Keys))
  {
    var byRow := RowSum(TakenIn(x, m, d), x.rows.Keys);
    forall r | r in x.rows.Keys
      ensures ExclusiveIn(x, m, d)(r) == AmountIn(x, m, d)(r) - byRow(r)
    {
      TakenByRow(x, m, d, r);
    }
    SumDifference(x.rows.Keys, AmountIn(x, m, d), byRow, ExclusiveIn(x, m, d));
  }

  /** Adding and subtracting at the boundaries telescopes: the total of a domain is the sum of
      what its rows hold exclusively. */
  lemma DomainTotalIsExclusive(x: Indexed, m: Measure, d: DomainKey)
    ensures SumOver(x.rows.Keys, FlowInto(x, m, d)) == SumOver(x.rows.Keys, ExclusiveIn(x, m, d))
  {
    var keys := x.rows.Keys;
    var byChild := ColumnSum(TakenIn(x, m, d), keys);
    forall c | c in keys
      ensures byChild(c) == TakenFrom(x, m, d)(c)
    {
      TakenOnce(x, m, d, c);
    }
    SumSame(keys, byChild, TakenFrom(x, m, d));
    SumSwap(keys, keys, TakenIn(x, m, d));
    FlowSplits(x, m, d);
    ExclusiveSplits(x, m, d);
  }

  // ----- all domains together

  function UsedDomains(x: Indexed): set<DomainKey> {
    set path | path in x.rows && path in x.domains :: x.domains[path]
  }

  /** A resolved row with no resolved directory directly above it. */
  predicate IsTopmost(x: Indexed, path: Bytes) {
    path in x.rows && DomainOf(x, path).Some? && DomainAbove(x, path).None?
  }

  function TopmostAmount(x: Indexed, m: Measure): Bytes -> int {
    path => if IsTopmost(x, path) then Amount(x, m, path) else 0
  }

  function Flows(x: Indexed, m: Measure): (DomainKey, Bytes) -> int {
    (d, path) => Flow(x, m, d, path)
  }

  ghost function TotalOf(x: Indexed, m: Measure): DomainKey -> int {
    d => SumOver(x.rows.Keys, FlowInto(x, m, d))
  }

  function Gain(x: Indexed, m: Measure, path: Bytes): DomainKey -> int {
    d => if DomainOf(x, path) == Some(d) then Amount(x, m, path) else 0
  }

  function Loss(x: Indexed, m: Measure, path: Bytes): DomainKey -> int
    requires path in x.rows
  {
    d => if DomainAbove(x, path) == Some(d) then Amount(x, m, path) else 0
  }

  lemma FlowsOfRow(x: Indexed, m: Measure, path: Bytes)
    requires path in x.rows
    ensures ColumnSum(Flows(x, m), UsedDomains(x))(path) == TopmostAmount(x, m)(path)
  {
    var used := UsedDomains(x);
    var f := AtSecond(Flows(x, m), path);
    if DomainOf(x, path).None? || DomainAbove(x, path) == DomainOf(x, path) {
      SumZero(used, f);
    } else {
      SumDifference(used, Gain(x, m, path), Loss(x, m, path), f);
      SumSingle(used, Gain(x, m, path), x.domains[path]);
      if DomainAbove(x, path).Some? {
        var near := Above(x, path).value;
        SumSingle(used, Loss(x, m, path), x.domains[near]);
      } else {
        SumZero(used, Loss(x, m, path));
      }
    }
  }

  /** All domains together hold exactly the topmost resolved rows. */
  lemma DomainsSumToTopmost(x: Indexed, m: Measure)
    ensures SumOver(UsedDomains(x), TotalOf(x, m)) == SumOver(x.rows.Keys, TopmostAmount(x, m))
  {
    var keys, used := x.rows.Keys, UsedDomains(x);
    SumSwap(used, keys, Flows(x, m));
    forall d | d in used
      ensures RowSum(Flows(x, m), keys)(d) == TotalOf(x, m)(d)
    {
      SumSame(keys, At(Flows(x, m), d), FlowInto(x, m, d));
    }
    SumSame(used, RowSum(Flows(x, m), keys), TotalOf(x, m));
    forall path | path in keys
      ensures ColumnSum(Flows(x, m), used)(path) == TopmostAmount(x, m)(path)
    {
      FlowsOfRow(x, m, path);
    }
    SumSame(keys, ColumnSum(Flows(x, m), used), TopmostAmount(x, m));
  }

  /** When no row holds less than the rows directly below it, no total is negative. */
  lemma TotalsAreNotNegative(x: Indexed, m: Measure, d: DomainKey)
    requires forall r :: r in x.rows ==> Exclusive(x, m, r) >= 0
    ensures SumOver(x.rows.Keys, FlowInto(x, m, d)) >= 0
  {
    DomainTotalIsExclusive(x, m, d);
    SumAtLeastZero(x.rows.Keys, ExclusiveIn(x, m, d));
  }

  // ----- the accumulators

  datatype Balance = Balance(disk: int, apparent: int)

  function Sum(totals: map<DomainKey, Balance>, m: Measure, d: DomainKey): int {
    if d !in totals then 0 else if m == DiskBytes then totals[d].disk else totals[d].apparent
  }

  /** What is reported for a domain: negative sums are clamped and flagged. */
  datatype DomainTotal = DomainTotal(disk: int, apparent: int, negativeTotalClamped: bool)

  function ToTotal(s: Balance): DomainTotal {
    DomainTotal(if s.disk < 0 then 0 else s.disk, if s.apparent < 0 then 0 else s.apparent,
                s.disk < 0 || s.apparent < 0)
  }

  /** The domain of the nearest directory above that has a row. */
  method NearestIndexedAncestorMatch(x: Indexed, path: Bytes) returns (domain: Option<DomainKey>)
    requires path in x.rows
    ensures domain == DomainAbove(x, path)
  {
    var ancestor := x.rows[path].parentPath;
    while ancestor.Some?
      invariant NearestIndexed(x.rows, ancestor) == Above(x, path)
      decreases if ancestor.Some? then 1 + |ancestor.value| else 0
    {
      if ancestor.value in x.rows {
        return DomainOf(x, ancestor.value);
      }
      ancestor := ParentOf(ancestor.value);
    }
    return None;
  }

  class DomainAccumulators {
    var totals: map<DomainKey, Balance>

    constructor ()
      ensures totals == map[]
    {
      totals := map[];
    }

    method Add(d: DomainKey, disk: int, apparent: int)
      modifies this
      ensures totals.Keys == old(totals.Keys) + {d}
      ensures forall k :: Sum(totals, DiskBytes, k) == old(Sum(totals, DiskBytes, k)) + if k == d then disk else 0
      ensures forall k ::
                Sum(totals, ApparentBytes, k) == old(Sum(totals, ApparentBytes, k)) + if k == d then apparent else 0
    {
      var before := if d in totals then totals[d] else Balance(0, 0);
      totals := totals[d := Balance(before.disk + disk, before.apparent + apparent)];
    }

    /** One row, of which the domain has been looked up. */
    method AccumulateRow(x: Indexed, path: Bytes)
      requires path in x.rows
      modifies this
      ensures forall m, k :: Sum(totals, m, k) == old(Sum(totals, m, k)) + Flow(x, m, k, path)
      ensures forall k :: DomainOf(x, path) == Some(k) ==> k in totals
      ensures old(totals.Keys) <= totals.Keys
    {
      if path !in x.domains {
        return;
      }
      var d := x.domains[path];
      Add(d, 0, 0);
      var above := NearestIndexedAncestorMatch(x, path);
      if above == Some(d) {
        return;
      }
      var row := x.rows[path];
      Add(d, row.disk, row.apparent);
      if above.Some? {
        Add(above.value, -row.disk, -row.apparent);
      }
    }

    /** All rows of a snapshot, in any order. */
    method AccumulateBoundaryRows(x: Indexed)
      modifies this
      ensures forall m, d :: Sum(totals, m, d) == old(Sum(totals, m, d)) + SumOver(x.rows.Keys, FlowInto(x, m, d))
    {
      var left := x.rows.Keys;
      ghost var done: set<Bytes> := {};
      while left != {}
        invariant done == x.rows.Keys - left && left <= x.rows.Keys
        invariant forall m, d :: Sum(totals, m, d) == old(Sum(totals, m, d)) + SumOver(done, FlowInto(x, m, d))
      {
        var path :| path in left;
        AccumulateRow(x, path);
        forall m, d
          ensures SumOver(done + {path}, FlowInto(x, m, d)) == SumOver(done, FlowInto(x, m, d)) + Flow(x, m, d, path)
        {
          SumAdd(done, FlowInto(x, m, d), path);
        }
        left := left - {path};
        done := done + {path};
      }
      assert done == x.rows.Keys;
    }

    /** Snapshot after snapshot into the same totals. */
    method AccumulateSnapshots(xs: seq<Indexed>)
      modifies this
      ensures forall m, d :: Sum(totals, m, d) == old(Sum(totals, m, d)) + FlowOfAll(xs, m, d)
    {
      for i := 0 to |xs|
        invariant forall m, d :: Sum(totals, m, d) == old(Sum(totals, m, d)) + FlowOfAll(xs[..i], m, d)
      {
        AccumulateBoundaryRows(xs[i]);
        FlowOfNext(xs, i);
      }
      assert xs[..|xs|] == xs;
    }

    method Report() returns (report: map<DomainKey, DomainTotal>)
      ensures report.Keys == totals.Keys
      ensures forall d :: d in totals ==> report[d].disk >= 0 && report[d].apparent >= 0
      ensures forall d :: d in totals ==>
                (report[d].negativeTotalClamped <==> totals[d].disk < 0 || totals[d].apparent < 0)
      ensures forall d :: d in totals ==> report[d].disk == if totals[d].disk > 0 then totals[d].disk else 0
      ensures forall d :: d in totals ==> report[d].apparent == if totals[d].apparent > 0 then totals[d].apparent else 0
    {
      report := map d | d in totals :: ToTotal(totals[d]);
    }
  }

  /** What several snapshots add to a domain together. */
  ghost function FlowOfAll(xs: seq<Indexed>, m: Measure, d: DomainKey): int {
    if xs == [] then 0
    else
      var last := xs[|xs| - 1];
      FlowOfAll(xs[..|xs| - 1], m, d) + SumOver(last.rows.Keys, FlowInto(last, m, d))
  }

  lemma FlowOfNext(xs: seq<Indexed>, i: nat)
    requires i < |xs|
    ensures forall m, d ::
              FlowOfAll(xs[..i + 1], m, d) == FlowOfAll(xs[..i], m, d) + SumOver(xs[i].rows.Keys, FlowInto(xs[i], m, d))
  {
    assert xs[..i + 1][..i] == xs[..i];
  }
}
