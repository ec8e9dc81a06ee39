/** The inputs of the counterexamples are real: their tables are reached by a run of the store, their
    trees are walked in a file system. */
module ReachedInputs {
  import opened Models
  import opened Ids
  import opened Tables
  import opened Promotion
  import opened Operations
  import opened StoreRuns
  import opened Retention
  import opened Paths
  import opened Mounts
  import opened Walk
  import opened Counterexamples

  // ----- one collection of one row

  function RowOf(path: Bytes, f: Facts): DirectoryAggregate {
    DirectoryAggregate(path, None, None, f)
  }

  function StateOf(f: Facts): State {
    State(Null, Null, f)
  }

  /** No other path is known, and nothing is being collected. */
  predicate AtRest(t: Tables, path: Bytes) {
    Coherent(t) && t.diagnostics == map[] && (t.paths == map[] || t.paths == map[1 := path])
  }

  lemma EncodedRow(paths: map<PathId, Bytes>, path: Bytes, f: Facts)
    requires paths == map[] || paths == map[1 := path]
    ensures Injective(paths)
    ensures Encode(paths, RowOf(path, f)) == Encoded(map[1 := path], StateRow(1, StateOf(f)))
  {
    if paths != map[] {
      assert 1 in paths;
      FindPathUnique(paths, 1);
    }
  }

  lemma InsertedRow(t: Tables, id: SnapshotId, path: Bytes, f: Facts)
    requires AtRest(t, path) && id in t.snapshots
    ensures
      InsertRows(t, id, [RowOf(path, f)])
      == Applied(t.(paths := map[1 := path], diagnostics := map[DiagnosticKey(id, 1) := StateOf(f)]))
  {
    EncodedRow(t.paths, path, f);
    var rows := [RowOf(path, f)];
    assert rows[..|rows| - 1] == [];
    assert InsertRows(t, id, []) == Applied(t);
  }

  /** The steps of a collection, and what follows it. */
  function Collecting(id: SnapshotId, root: Root, rows: seq<DirectoryAggregate>, at: int, later: seq<Op>): seq<Op> {
    [Create(root, at)] + ([Insert(id, rows)] + ([Finish(id, Complete, at)] + later))
  }

  /** The tables before the promotion. */
  function Filled(t: Tables, id: SnapshotId, root: Root, path: Bytes, f: Facts, at: int): Tables {
    Tables(t.snapshots[id := Snapshot(root, Running, at, None)], map[DiagnosticKey(id, 1) := StateOf(f)], t.intervals,
           map[1 := path])
  }

  lemma CollectedRow(t: Tables, id: SnapshotId, root: Root, path: Bytes, f: Facts, at: int, later: seq<Op>,
                     after: Tables)
    requires AtRest(t, path) && id == NextId(t.snapshots.Keys)
    requires after == Finalize(Filled(t, id, root, path, f, at), id, Complete, at)
    ensures Coherent(after)
    ensures CanRun(after, later) ==>
              CanRun(t, Collecting(id, root, [RowOf(path, f)], at, later)) &&
              Run(t, Collecting(id, root, [RowOf(path, f)], at, later)) == Run(after, later)
  {
    var rows, finish := [RowOf(path, f)], Finish(id, Complete, at);
    CreateReads(t, root, at);
    var created := Apply(t, Create(root, at));
    InsertedRow(created, id, path, f);
    InsertRowsReads(created, id, rows);
    var filled := Apply(created, Insert(id, rows));
    assert filled == Filled(t, id, root, path, f, at);
    assert Enabled(filled, finish);
    FinishKeepsCoherent(filled, id, Complete, at);
    if CanRun(after, later) {
      RunCons(filled, finish, later);
      RunCons(created, Insert(id, rows), [finish] + later);
      RunCons(t, Create(root, at), [Insert(id, rows)] + ([finish] + later));
    }
  }

  // ----- the promotion of a row that changed

  lemma PromotedFirst(id: SnapshotId, root: Root, path: Bytes, f: Facts, at: int)
    ensures
      Finalize(Filled(EMPTY_TABLES, id, root, path, f, at), id, Complete, at)
      == Tables(map[id := Finished(root, at)], map[], {Interval(root, 1, id, Null, StateOf(f))}, map[1 := path])
  {
    var t := Filled(EMPTY_TABLES, id, root, path, f, at);
    assert DiagnosticKey(id, 1) in t.diagnostics;
    assert Fresh(t, root, id) == {Interval(root, 1, id, Null, StateOf(f))};
  }

  /** One version is open, and the new row differs from it. */
  predicate IsChange(t: Tables, root: Root, last: Interval, f: Facts) {
    last in t.intervals && last.root == root && last.pathId == 1 && last.to.Null? && last.state != StateOf(f) &&
    forall i :: i in t.intervals && IsOpen(i, root) ==> i == last
  }

  lemma PromotedChange(t: Tables, id: SnapshotId, root: Root, path: Bytes, f: Facts, at: int, last: Interval)
    requires IsChange(t, root, last, f)
    ensures
      Finalize(Filled(t, id, root, path, f, at), id, Complete, at)
      == Tables(t.snapshots[id := Finished(root, at)], map[],
                t.intervals - {last} + {last.(to := Id(id)), Interval(root, 1, id, Null, StateOf(f))}, map[1 := path])
  {
    var filled := Filled(t, id, root, path, f, at);
    assert DiagnosticKey(id, 1) in filled.diagnostics;
    assert Stale(filled, root, id) == {1};
    assert Fresh(filled, root, id) == {Interval(root, 1, id, Null, StateOf(f))};
    ClosedOne(t.intervals, root, id, last);
  }

  lemma ClosedOne(intervals: set<Interval>, root: Root, id: SnapshotId, last: Interval)
    requires last in intervals && last.root == root && last.pathId == 1 && last.to.Null?
    requires forall i :: i in intervals && IsOpen(i, root) ==> i == last
    ensures CloseOpen(intervals, root, {1}, id) == intervals - {last} + {last.(to := Id(id))}
  {
    var closed := CloseOpen(intervals, root, {1}, id);
    forall i | i in intervals - {last} + {last.(to := Id(id))}
      ensures i in closed
    {
      var source := if i == last.(to := Id(id)) then last else i;
      assert source in intervals;
    }
  }

  // ----- the alternating tables

  function AfterOne(root: Root, path: Bytes, f: Facts): Tables {
    Tables(map[1 := Finished(root, 0)], map[], {Interval(root, 1, 1, Null, StateOf(f))}, map[1 := path])
  }

  function AfterTwo(root: Root, path: Bytes, f: Facts, g: Facts): Tables {
    Tables(map[1 := Finished(root, 0), 2 := Finished(root, SECONDS_PER_DAY)], map[],
           {Interval(root, 1, 1, Id(2), StateOf(f)), Interval(root, 1, 2, Null, StateOf(g))}, map[1 := path])
  }

  lemma SecondChange(root: Root, path: Bytes, f: Facts, g: Facts)
    requires f != g
    ensures Finalize(Filled(AfterOne(root, path, f), 2, root, path, g, SECONDS_PER_DAY), 2, Complete, SECONDS_PER_DAY)
            == AfterTwo(root, path, f, g)
  {
    var t, last := AfterOne(root, path, f), Interval(root, 1, 1, Null, StateOf(f));
    PromotedChange(t, 2, root, path, g, SECONDS_PER_DAY, last);
    assert t.intervals - {last} == {};
  }

  lemma ThirdChange(root: Root, path: Bytes, f: Facts, g: Facts)
    requires f != g
    ensures
      var at := SECONDS_PER_DAY + 1;
      Finalize(Filled(AfterTwo(root, path, f, g), 3, root, path, f, at), 3, Complete, at)
      == Alternating(root, path, f, g)
  {
    var t, last := AfterTwo(root, path, f, g), Interval(root, 1, 2, Null, StateOf(g));
    PromotedChange(t, 3, root, path, f, SECONDS_PER_DAY + 1, last);
    assert t.intervals - {last} == {Interval(root, 1, 1, Id(2), StateOf(f))};
  }

  lemma NextIdIs(used: set<SnapshotId>, last: SnapshotId)
    requires last in used && forall k :: k in used ==> k <= last
    ensures NextId(used) == last + 1
  {
  }

  /** The run that continues with the given steps leads from one table to the end of the other's. */
  ghost predicate LeadsTo(t: Tables, ops: seq<Op>, after: Tables, later: seq<Op>)
    requires Coherent(t) && Coherent(after)
  {
    CanRun(after, later) ==> CanRun(t, ops) && Run(t, ops) == Run(after, later)
  }

  lemma FirstCollected(root: Root, path: Bytes, f: Facts, later: seq<Op>)
    ensures AtRest(EMPTY_TABLES, path) && Coherent(AfterOne(root, path, f))
    ensures LeadsTo(EMPTY_TABLES, Collecting(1, root, [RowOf(path, f)], 0, later), AfterOne(root, path, f), later)
  {
    PromotedFirst(1, root, path, f, 0);
    CollectedRow(EMPTY_TABLES, 1, root, path, f, 0, later, AfterOne(root, path, f));
  }

  lemma SecondCollected(root: Root, path: Bytes, f: Facts, g: Facts, later: seq<Op>)
    requires f != g && Coherent(AfterOne(root, path, f))
    ensures Coherent(AfterTwo(root, path, f, g))
    ensures LeadsTo(AfterOne(root, path, f), Collecting(2, root, [RowOf(path, g)], SECONDS_PER_DAY, later),
                    AfterTwo(root, path, f, g), later)
  {
    SecondChange(root, path, f, g);
    NextIdIs(AfterOne(root, path, f).snapshots.Keys, 1);
    CollectedRow(AfterOne(root, path, f), 2, root, path, g, SECONDS_PER_DAY, later, AfterTwo(root, path, f, g));
  }

  lemma ThirdCollected(root: Root, path: Bytes, f: Facts, g: Facts)
    requires f != g && Coherent(AfterTwo(root, path, f, g))
    ensures Coherent(Alternating(root, path, f, g))
    ensures LeadsTo(AfterTwo(root, path, f, g), Collecting(3, root, [RowOf(path, f)], SECONDS_PER_DAY + 1, []),
                    Alternating(root, path, f, g), [])
  {
    ThirdChange(root, path, f, g);
    NextIdIs(AfterTwo(root, path, f, g).snapshots.Keys, 2);
    CollectedRow(AfterTwo(root, path, f, g), 3, root, path, f, SECONDS_PER_DAY + 1, [], Alternating(root, path, f, g));
  }

  function ThirdOf(root: Root, path: Bytes, f: Facts): seq<Op> {
    Collecting(3, root, [RowOf(path, f)], SECONDS_PER_DAY + 1, [])
  }

  function SecondOf(root: Root, path: Bytes, f: Facts, g: Facts): seq<Op> {
    Collecting(2, root, [RowOf(path, g)], SECONDS_PER_DAY, ThirdOf(root, path, f))
  }

  /** Three collections of one row each. */
  function ThreeCollections(root: Root, path: Bytes, f: Facts, g: Facts): seq<Op> {
    Collecting(1, root, [RowOf(path, f)], 0, SecondOf(root, path, f, g))
  }

  /** The tables on which pruning leaves a removable row, and on which a dropped snapshot reads other
      rows, are those of three collections. */
  lemma AlternatingIsReached(root: Root, path: Bytes, f: Facts, g: Facts)
    requires f != g
    ensures Coherent(EMPTY_TABLES) && CanRun(EMPTY_TABLES, ThreeCollections(root, path, f, g))
    ensures Run(EMPTY_TABLES, ThreeCollections(root, path, f, g)) == Alternating(root, path, f, g)
  {
    FirstCollected(root, path, f, SecondOf(root, path, f, g));
    SecondCollected(root, path, f, g, ThirdOf(root, path, f));
    ThirdCollected(root, path, f, g);
    ThreeRuns(EMPTY_TABLES, AfterOne(root, path, f), AfterTwo(root, path, f, g), Alternating(root, path, f, g),
              ThreeCollections(root, path, f, g), SecondOf(root, path, f, g), ThirdOf(root, path, f));
  }

  lemma ThreeRuns(t: Tables, t1: Tables, t2: Tables, t3: Tables, first: seq<Op>, second: seq<Op>, third: seq<Op>)
    requires Coherent(t) && Coherent(t1) && Coherent(t2) && Coherent(t3)
    requires LeadsTo(t, first, t1, second) && LeadsTo(t1, second, t2, third) && LeadsTo(t2, third, t3, [])
    ensures CanRun(t, first) && Run(t, first) == t3
  {
  }

  // ----- the trees

  const NO_RULES := Setup([], [], MountPolicy({}, {}, false, false, false), false, 0, 0)

  /** A file system with one directory of the given size below the root. */
  function OneDirectory(size: int, blocks: int): FileSystem {
    FileSystem(
      path => if path == ROOT then Entries([LeafEntry(size, blocks)]) else Entries([]),
      {Key(0, 0), Key(0, 1)})
  }

  function LeafEntry(size: int, blocks: int): Entry {
    Entry(NAME, IsDirectory(DirectoryStat(Key(0, 1), size, blocks)), LooksLikeDirectory)
  }

  function AtRoot(): Visit {
    Visit(ROOT, None, 0, DirectoryStat(Key(0, 0), 0, 0), None)
  }

  /** The trees of the other cases are what a scan of that file system visits. */
  lemma TreeIsWalked(size: int, blocks: int)
    ensures OneDirectory(size, blocks).Valid()
    ensures WalkDirectory(NO_RULES, OneDirectory(size, blocks), [], AtRoot(), {}).node == RootWithLeaf(size, blocks)
  {
    var fs, d, e := OneDirectory(size, blocks), AtRoot(), LeafEntry(size, blocks);
    JoinParent(ROOT, NAME);
    var chain := [] + [LinkOf(d)];
    var leaf := Visit(Join(ROOT, NAME), Some(ROOT), 1, e.stat.directory, None);
    assert Handle(NO_RULES, chain, d, e, {}) == Descend(NO_EFFECT.(isDirectory := true), leaf);
    assert WalkDirectory(NO_RULES, fs, chain, leaf, {}).node == Leaf(size, blocks);
    assert [e][1..] == [];
    assert WalkEntries(NO_RULES, fs, chain, d, [], {}).items == [];
  }
}
