/** Root totals looked up directly among the intervals, against the reconstructed snapshots. */
module RootTotals {
  import opened Models
  import opened Tables
  import opened Ordering

  datatype RootTotal = RootTotal(apparentBytes: int, diskBytes: int, fileCount: int, dirCount: int)

  function TotalOf(facts: Facts): RootTotal {
    RootTotal(facts.totals.apparentBytes, facts.totals.diskBytes, facts.totals.fileCount, facts.totals.dirCount)
  }

  /** The WHERE clause of the query for the given roots and the range of the requested ids. */
  predicate Selected(i: Interval, roots: set<Root>, minId: SnapshotId, maxId: SnapshotId) {
    i.state.facts.depth == 0 && i.root in roots && i.from <= maxId && (i.to.Null? || minId < i.to.id)
  }

  /** The result set of the query, in some order. */
  ghost predicate Lists(listed: seq<Interval>, t: Tables, roots: set<Root>, minId: SnapshotId, maxId: SnapshotId) {
    forall i {:trigger i in listed} {:trigger i in t.intervals} ::
      i in listed <==> i in t.intervals && Selected(i, roots, minId, maxId)
  }

  function OfRoot(root: Root): Interval -> bool {
    (i: Interval) => i.root == root
  }

  predicate IsFirstCovering(intervals: seq<Interval>, id: SnapshotId, k: int) {
    0 <= k < |intervals| && intervals[k].Covers(id) && forall j :: 0 <= j < k ==> !intervals[j].Covers(id)
  }

  /** The first listed interval that covers the snapshot. */
  method MatchingRootInterval(intervals: seq<Interval>, id: SnapshotId) returns (found: bool, interval: Interval)
    requires intervals != []
    ensures found ==> exists k :: IsFirstCovering(intervals, id, k) && interval == intervals[k]
    ensures !found ==> forall i :: i in intervals ==> !i.Covers(id)
  {
    found, interval := false, intervals[0];
    for k := 0 to |intervals|
      invariant forall j :: 0 <= j < k ==> !intervals[j].Covers(id)
    {
      if intervals[k].Covers(id) {
        assert IsFirstCovering(intervals, id, k);
        return true, intervals[k];
      }
    }
  }

  /** The rows of depth zero that a snapshot reads. */
  ghost predicate IsRootRow(t: Tables, id: SnapshotId, r: DirectoryAggregate)
    requires id in t.snapshots
  {
    r in Rows(t, id) && r.facts.depth == 0
  }

  ghost predicate HasRootRow(t: Tables, id: SnapshotId)
    requires id in t.snapshots
  {
    exists r :: r in Rows(t, id) && r.facts.depth == 0
  }

  /** A covering interval of depth zero is a root row of the snapshot. */
  lemma CoveringIsRootRow(t: Tables, id: SnapshotId, i: Interval) returns (r: DirectoryAggregate)
    requires Coherent(t) && id in t.snapshots && t.snapshots[id].status == Complete
    requires i in t.intervals && i.root == t.snapshots[id].rootPath && i.Covers(id) && i.state.facts.depth == 0
    ensures IsRootRow(t, id, r) && r.facts == i.state.facts
  {
    assert WellFormed(t, i);
    var e := StateRow(i.pathId, i.state);
    assert e in SnapshotState(t, id);
    r := Decode(t.paths, e);
  }

  /** A root row of a complete snapshot is stored as an interval that covers it. */
  lemma IntervalOfRootRow(t: Tables, id: SnapshotId) returns (i: Interval)
    requires id in t.snapshots && t.snapshots[id].status == Complete && HasRootRow(t, id)
    ensures i in t.intervals && i.root == t.snapshots[id].rootPath && i.Covers(id) && i.state.facts.depth == 0
  {
    var r :| r in Rows(t, id) && r.facts.depth == 0;
    var e :| e in SnapshotState(t, id) && e.pathId in t.paths && Decode(t.paths, e) == r;
    i :| i in t.intervals && i.root == t.snapshots[id].rootPath && i.Covers(id) && e == StateRow(i.pathId, i.state);
  }

  /** A root row of a complete snapshot is listed, whatever other snapshots are asked for. */
  lemma RootRowIsListed(t: Tables, id: SnapshotId, listed: seq<Interval>, roots: set<Root>, minId: SnapshotId,
                        maxId: SnapshotId)
    requires Coherent(t) && id in t.snapshots && t.snapshots[id].status == Complete
    requires Lists(listed, t, roots, minId, maxId) && minId <= id <= maxId && t.snapshots[id].rootPath in roots
    requires HasRootRow(t, id)
    ensures exists i :: i in Filter(OfRoot(t.snapshots[id].rootPath), listed) && i.Covers(id)
  {
    var i := IntervalOfRootRow(t, id);
    FilterMember(OfRoot(t.snapshots[id].rootPath), listed, i);
  }

  /** What the lookup finds for a snapshot is the total of a root row it reads; it finds nothing
      exactly when there is none. */
  ghost predicate FoundRight(t: Tables, id: SnapshotId, totals: map<SnapshotId, RootTotal>)
    requires id in t.snapshots
  {
    (id in totals <==> HasRootRow(t, id)) &&
    (id in totals ==> exists r :: r in Rows(t, id) && r.facts.depth == 0 && totals[id] == TotalOf(r.facts))
  }

  method LookUp(ghost t: Tables, ghost roots: set<Root>, ghost minId: SnapshotId, ghost maxId: SnapshotId,
                listed: seq<Interval>, id: SnapshotId, root: Root, before: map<SnapshotId, RootTotal>)
    returns (totals: map<SnapshotId, RootTotal>)
    requires Coherent(t) && Lists(listed, t, roots, minId, maxId)
    requires id in t.snapshots && t.snapshots[id].status == Complete && t.snapshots[id].rootPath == root
    requires root in roots && minId <= id <= maxId && id !in before
    ensures FoundRight(t, id, totals)
    ensures forall k :: k != id ==> (k in totals <==> k in before) && (k in before ==> totals[k] == before[k])
  {
    totals := before;
    var intervals := Filter(OfRoot(root), listed);
    if HasRootRow(t, id) {
      RootRowIsListed(t, id, listed, roots, minId, maxId);
    }
    if intervals != [] {
      var found, interval := MatchingRootInterval(intervals, id);
      if found {
        FilterMember(OfRoot(root), listed, interval);
        ghost var r := CoveringIsRootRow(t, id, interval);
        totals := totals[id := TotalOf(interval.state.facts)];
      }
    }
  }

  /** A complete snapshot among those asked for. */
  ghost predicate Requested(t: Tables, roots: set<Root>, minId: SnapshotId, maxId: SnapshotId,
                            rootOf: map<SnapshotId, Root>, id: SnapshotId)
  {
    id in t.snapshots && t.snapshots[id].status == Complete && minId <= id <= maxId &&
    id in rootOf && rootOf[id] == t.snapshots[id].rootPath && rootOf[id] in roots
  }

  /** _query_complete_root_totals */
  method QueryCompleteRootTotals(ghost t: Tables, ghost roots: set<Root>, ghost minId: SnapshotId,
                                 ghost maxId: SnapshotId, listed: seq<Interval>, ids: seq<SnapshotId>,
                                 rootOf: map<SnapshotId, Root>)
    returns (totals: map<SnapshotId, RootTotal>)
    requires Coherent(t) && Lists(listed, t, roots, minId, maxId)
    requires forall i, j :: 0 <= i < j < |ids| ==> ids[i] != ids[j]
    requires forall i :: 0 <= i < |ids| ==> Requested(t, roots, minId, maxId, rootOf, ids[i])
    ensures forall i :: 0 <= i < |ids| ==> ids[i] in t.snapshots && FoundRight(t, ids[i], totals)
    ensures forall id :: id in totals ==> id in ids
  {
    totals := map[];
    for k := 0 to |ids|
      invariant forall i :: 0 <= i < k ==> ids[i] in t.snapshots && FoundRight(t, ids[i], totals)
      invariant forall id :: id in totals ==> exists i :: 0 <= i < k && ids[i] == id
    {
      assert Requested(t, roots, minId, maxId, rootOf, ids[k]);
      totals := LookUp(t, roots, minId, maxId, listed, ids[k], rootOf[ids[k]], totals);
    }
  }
}
