/** The database tables and the relation every report reads them through. */
module Tables {
  import opened Models
  import opened Ids

  type Root = string

  datatype Snapshot = Snapshot(rootPath: Root, status: Status, startedAt: int, finishedAt: Option<int>)

  /** The state columns of a stored row; paths are replaced by dictionary ids. */
  datatype State = State(parentId: NullableId, topChildId: NullableId, facts: Facts)

  datatype StateRow = StateRow(pathId: PathId, state: State)

  datatype DiagnosticKey = DiagnosticKey(snapshotId: SnapshotId, pathId: PathId)

  /** One row version, valid for the complete snapshots of its root with from <= id < to. */
  datatype Interval = Interval(root: Root, pathId: PathId, from: SnapshotId, to: NullableId, state: State)
  {
    predicate Covers(id: SnapshotId) {
      from <= id && (to.Null? || id < to.id)
    }

    predicate SameKey(other: Interval) {
      root == other.root && pathId == other.pathId
    }

    /** This version ends before the other begins. */
    predicate Precedes(other: Interval) {
      to.Id? && to.id <= other.from
    }

    predicate Apart(other: Interval) {
      Precedes(other) || other.Precedes(this)
    }

    predicate Refers(id: PathId) {
      pathId == id || state.parentId == Id(id) || state.topChildId == Id(id)
    }
  }

  datatype Tables = Tables(
    snapshots: map<SnapshotId, Snapshot>,
    diagnostics: map<DiagnosticKey, State>,
    intervals: set<Interval>,
    paths: map<PathId, Bytes>)

  const EMPTY_TABLES := Tables(map[], map[], {}, map[])

  // ----- reading

  /** LEFT JOIN paths. */
  function PathOf(paths: map<PathId, Bytes>, id: NullableId): Option<Bytes> {
    if id.Id? && id.id in paths then Some(paths[id.id]) else None
  }

  function Decode(paths: map<PathId, Bytes>, e: StateRow): DirectoryAggregate
    requires e.pathId in paths
  {
    DirectoryAggregate(paths[e.pathId], PathOf(paths, e.state.parentId), PathOf(paths, e.state.topChildId),
                       e.state.facts)
  }

  function CoveringStates(intervals: set<Interval>, root: Root, id: SnapshotId): set<StateRow> {
    set i | i in intervals && i.root == root && i.Covers(id) :: StateRow(i.pathId, i.state)
  }

  function DiagnosticStates(diagnostics: map<DiagnosticKey, State>, id: SnapshotId): set<StateRow> {
    set k | k in diagnostics && k.snapshotId == id :: StateRow(k.pathId, diagnostics[k])
  }

  /** The snapshot_state relation: complete snapshots are read from intervals, all
      others from diagnostic rows. */
  function SnapshotState(t: Tables, id: SnapshotId): set<StateRow>
    requires id in t.snapshots
  {
    if t.snapshots[id].status == Complete then CoveringStates(t.intervals, t.snapshots[id].rootPath, id)
    else DiagnosticStates(t.diagnostics, id)
  }

  function DecodeAll(paths: map<PathId, Bytes>, states: set<StateRow>): set<DirectoryAggregate> {
    set e | e in states && e.pathId in paths :: Decode(paths, e)
  }

  /** The rows of a snapshot, as reports see them. */
  function Rows(t: Tables, id: SnapshotId): set<DirectoryAggregate>
    requires id in t.snapshots
  {
    DecodeAll(t.paths, SnapshotState(t, id))
  }

  // ----- what every operation keeps

  predicate Resolves(paths: map<PathId, Bytes>, e: StateRow) {
    e.pathId in paths &&
    (e.state.parentId.Id? ==> e.state.parentId.id in paths) &&
    (e.state.topChildId.Id? ==> e.state.topChildId.id in paths)
  }

  /** An interval boundary is the id of a row of the same root that was promoted once;
      an interrupted collection may have relabelled it failed since. */
  predicate IsBoundary(t: Tables, root: Root, id: SnapshotId) {
    id in t.snapshots && t.snapshots[id].rootPath == root &&
    (t.snapshots[id].status == Complete || t.snapshots[id].status == Failed)
  }

  predicate WellFormed(t: Tables, i: Interval) {
    (i.to.Id? ==> i.from < i.to.id) &&
    IsBoundary(t, i.root, i.from) &&
    (i.to.Id? ==> IsBoundary(t, i.root, i.to.id)) &&
    Resolves(t.paths, StateRow(i.pathId, i.state))
  }

  predicate Disjoint(intervals: set<Interval>) {
    forall i, j :: i in intervals && j in intervals && i != j && i.SameKey(j) ==> i.Apart(j)
  }

  predicate Injective(paths: map<PathId, Bytes>) {
    forall a, b :: a in paths && b in paths && paths[a] == paths[b] ==> a == b
  }

  predicate DiagnosticsResolve(t: Tables) {
    forall k :: k in t.diagnostics ==>
      k.snapshotId in t.snapshots && t.snapshots[k.snapshotId].status != Complete &&
      Resolves(t.paths, StateRow(k.pathId, t.diagnostics[k]))
  }

  predicate Coherent(t: Tables) {
    Injective(t.paths) &&
    DiagnosticsResolve(t) &&
    (forall i :: i in t.intervals ==> WellFormed(t, i)) &&
    Disjoint(t.intervals)
  }

  /** Disjoint versions leave at most one open version per root and path. */
  lemma AtMostOneOpen(t: Tables, i: Interval, j: Interval)
    requires Coherent(t) && i in t.intervals && j in t.intervals && i.SameKey(j)
    requires i.to.Null? && j.to.Null?
    ensures i == j
  {
  }

  /** A complete snapshot reads at most one row per path. */
  lemma OneRowPerPath(t: Tables, id: SnapshotId, r: DirectoryAggregate, s: DirectoryAggregate)
    requires Coherent(t) && id in t.snapshots
    requires r in Rows(t, id) && s in Rows(t, id) && r.path == s.path
    ensures r == s
  {
    var a :| a in SnapshotState(t, id) && a.pathId in t.paths && Decode(t.paths, a) == r;
    var b :| b in SnapshotState(t, id) && b.pathId in t.paths && Decode(t.paths, b) == s;
    assert a.pathId == b.pathId;
    if t.snapshots[id].status == Complete {
      var root := t.snapshots[id].rootPath;
      var i :| i in t.intervals && i.root == root && i.Covers(id) && a == StateRow(i.pathId, i.state);
      var j :| j in t.intervals && j.root == root && j.Covers(id) && b == StateRow(j.pathId, j.state);
      assert i.SameKey(j);
    }
  }

  // ----- the path dictionary

  /** SELECT id FROM paths WHERE path = ?; the column is UNIQUE. */
  function FindPath(paths: map<PathId, Bytes>, path: Bytes): (id: NullableId)
    requires Injective(paths)
    ensures id.Null? ==> path !in paths.Values
    ensures id.Id? ==> id.id in paths && paths[id.id] == path
  {
    if id :| id in paths && paths[id] == path then Id(id) else Null
  }

  /** Looks a path up, adding it under a fresh id when it is missing. */
  function ResolvePath(paths: map<PathId, Bytes>, path: Bytes): (r: (map<PathId, Bytes>, PathId))
    requires Injective(paths)
    ensures Extends(paths, r.0) && Injective(r.0)
    ensures r.1 in r.0 && r.0[r.1] == path
  {
    match FindPath(paths, path)
    case Id(id) => (paths, id)
    case Null =>
      var id := NextId(paths.Keys);
      (paths[id := path], id)
  }

  function ResolveOptional(paths: map<PathId, Bytes>, path: Option<Bytes>): (r: (map<PathId, Bytes>, NullableId))
    requires Injective(paths)
    ensures Extends(paths, r.0) && Injective(r.0)
    ensures PathOf(r.0, r.1) == path
    ensures r.1.Id? ==> r.1.id in r.0
  {
    match path
    case None => (paths, Null)
    case Some(p) =>
      var (more, id) := ResolvePath(paths, p);
      (more, Id(id))
  }

  predicate Extends(paths: map<PathId, Bytes>, more: map<PathId, Bytes>) {
    forall id :: id in paths ==> id in more && more[id] == paths[id]
  }

  /** In an injective dictionary the id of a known path does not depend on the search. */
  lemma FindPathUnique(paths: map<PathId, Bytes>, id: PathId)
    requires Injective(paths) && id in paths
    ensures FindPath(paths, paths[id]) == Id(id)
  {
  }

  lemma DecodeExtends(paths: map<PathId, Bytes>, more: map<PathId, Bytes>, states: set<StateRow>)
    requires Extends(paths, more)
    requires forall e :: e in states ==> Resolves(paths, e)
    ensures DecodeAll(more, states) == DecodeAll(paths, states)
  {
  }

  lemma StatesResolve(t: Tables, id: SnapshotId)
    requires Coherent(t) && id in t.snapshots
    ensures forall e :: e in SnapshotState(t, id) ==> Resolves(t.paths, e)
  {
  }
}
