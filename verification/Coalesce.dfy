/** How many interval rows merging adjacent equal versions would save. */
module Coalesce {
  import opened Models
  import opened Ids
  import opened Tables
  import opened Promotion
  import opened Normalization
  import opened Operations
  import opened StoreRuns

  /** LAG over the versions of one root and path in order of their starts. */
  predicate IsPrevious(intervals: set<Interval>, i: Interval, j: Interval) {
    i.SameKey(j) && i.from < j.from &&
    forall k :: k in intervals && k.SameKey(j) && k.from < j.from ==> k.from <= i.from
  }

  predicate IsRemovable(intervals: set<Interval>, j: Interval) {
    exists i :: i in intervals && IsPrevious(intervals, i, j) && i.to == Id(j.from) && i.state == j.state
  }

  /** The rows the estimator counts. */
  function Removable(intervals: set<Interval>): set<Interval> {
    set j | j in intervals && IsRemovable(intervals, j)
  }

  predicate Shaped(intervals: set<Interval>) {
    Disjoint(intervals) && forall i :: i in intervals && i.to.Id? ==> i.from < i.to.id
  }

  /** Between disjoint versions the one that ends where another starts is its predecessor. */
  lemma TouchingIsPrevious(intervals: set<Interval>, i: Interval, j: Interval)
    requires Shaped(intervals) && i in intervals && j in intervals && i.SameKey(j) && i.to == Id(j.from)
    ensures IsPrevious(intervals, i, j)
  {
  }

  predicate Touches(i: Interval, j: Interval) {
    i.SameKey(j) && i.to == Id(j.from) && i.state == j.state
  }

  lemma RemovableIff(intervals: set<Interval>, j: Interval)
    requires Shaped(intervals) && j in intervals
    ensures IsRemovable(intervals, j) <==> exists i :: i in intervals && Touches(i, j)
  {
    if i :| i in intervals && Touches(i, j) {
      TouchingIsPrevious(intervals, i, j);
    }
    if IsRemovable(intervals, j) {
      var i :| i in intervals && IsPrevious(intervals, i, j) && i.to == Id(j.from) && i.state == j.state;
      assert Touches(i, j);
    }
  }

  // ----- merging

  function MergeOne(intervals: set<Interval>, i: Interval, j: Interval): set<Interval> {
    intervals - {i, j} + {i.(to := j.to)}
  }

  lemma MergeOneKeepsShape(intervals: set<Interval>, i: Interval, j: Interval)
    requires Shaped(intervals) && i in intervals && j in intervals && Touches(i, j)
    ensures Shaped(MergeOne(intervals, i, j))
    ensures i != j && i.(to := j.to) !in intervals
    ensures |MergeOne(intervals, i, j)| == |intervals| - 1
  {
    var m := i.(to := j.to);
    assert m !in intervals || m == i || m.Apart(i);
    forall a, b | a in MergeOne(intervals, i, j) && b in MergeOne(intervals, i, j) && a != b && a.SameKey(b)
      ensures a.Apart(b)
    {
      if a == m {
        assert b.Apart(i) && b.Apart(j);
      } else if b == m {
        assert a.Apart(i) && a.Apart(j);
      }
    }
    assert |intervals - {i, j}| == |intervals| - 2;
  }

  lemma MergeOneKeepsReads(intervals: set<Interval>, i: Interval, j: Interval, root: Root, id: SnapshotId)
    requires Shaped(intervals) && i in intervals && j in intervals && Touches(i, j)
    ensures CoveringStates(MergeOne(intervals, i, j), root, id) == CoveringStates(intervals, root, id)
  {
  }

  lemma MergedHead(intervals: set<Interval>, i: Interval, j: Interval)
    requires Shaped(intervals) && i in intervals && j in intervals && Touches(i, j)
    ensures IsRemovable(MergeOne(intervals, i, j), i.(to := j.to)) <==> IsRemovable(intervals, i)
  {
  }

  lemma MergedOther(intervals: set<Interval>, i: Interval, j: Interval, k: Interval)
    requires Shaped(intervals) && i in intervals && j in intervals && Touches(i, j)
    requires k in intervals && k != i && k != j
    ensures IsRemovable(MergeOne(intervals, i, j), k) <==> IsRemovable(intervals, k)
  {
    var m := i.(to := j.to);
    var merged := MergeOne(intervals, i, j);
    MergeOneKeepsShape(intervals, i, j);
    RemovableIff(intervals, k);
    RemovableIff(merged, k);
    if h :| h in intervals && Touches(h, k) {
      assert k.SameKey(i) ==> k.Apart(j) && k.Apart(i);
      var g := if h == j then m else h;
      assert g in merged && Touches(g, k);
    }
    if h :| h in merged && Touches(h, k) {
      var g := if h == m then j else h;
      assert g in intervals && Touches(g, k);
    }
  }

  /** A merge removes exactly one row from the count. */
  lemma MergeOneCounts(intervals: set<Interval>, i: Interval, j: Interval)
    requires Shaped(intervals) && i in intervals && j in intervals && Touches(i, j)
    ensures |Removable(MergeOne(intervals, i, j))| == |Removable(intervals)| - 1
  {
    var m := i.(to := j.to);
    var merged := MergeOne(intervals, i, j);
    MergeOneKeepsShape(intervals, i, j);
    RemovableIff(intervals, j);
    MergedHead(intervals, i, j);
    forall k | k in intervals && k != i && k != j
      ensures k in Removable(merged) <==> k in Removable(intervals)
    {
      MergedOther(intervals, i, j, k);
    }
    SwapCounts(Removable(intervals), Removable(merged), i, j, m);
  }

  lemma SwapCounts<T>(a: set<T>, b: set<T>, i: T, j: T, m: T)
    requires j in a && i != j && m !in a && i !in b && j !in b
    requires m in b <==> i in a
    requires forall k :: k != i && k != j && k != m ==> (k in b <==> k in a)
    ensures |b| == |a| - 1
  {
    var rest := a - {i, j};
    assert a == rest + {j} + if i in a then {i} else {};
    assert b == rest + if i in a then {m} else {};
  }

  /** Merging until nothing is left to merge removes exactly the counted rows and changes no
      reconstruction, of any snapshot id whatsoever. */
  lemma {:induction false} CoalesceAll(intervals: set<Interval>) returns (merged: set<Interval>)
    requires Shaped(intervals)
    ensures Shaped(merged) && Removable(merged) == {}
    ensures |merged| == |intervals| - |Removable(intervals)|
    ensures forall root, id :: CoveringStates(merged, root, id) == CoveringStates(intervals, root, id)
    decreases |Removable(intervals)|
  {
    if Removable(intervals) == {} {
      merged := intervals;
    } else {
      var j :| j in Removable(intervals);
      RemovableIff(intervals, j);
      var i :| i in intervals && Touches(i, j);
      MergeOneKeepsShape(intervals, i, j);
      MergeOneCounts(intervals, i, j);
      merged := CoalesceAll(MergeOne(intervals, i, j));
      forall root, id
        ensures CoveringStates(merged, root, id) == CoveringStates(intervals, root, id)
      {
        MergeOneKeepsReads(intervals, i, j, root, id);
      }
    }
  }

  // ----- which histories leave something to merge

  lemma CoherentIsShaped(t: Tables)
    requires Coherent(t)
    ensures Shaped(t.intervals)
  {
  }

  /** Promotion starts a version only where the state changed or the path was absent. */
  lemma PromoteAddsNothingRemovable(t: Tables, id: SnapshotId, now: int)
    requires Promotable(t, id) && Removable(t.intervals) == {}
    ensures Removable(Promote(t, id).intervals) == {}
  {
    var after := Promote(t, id).intervals;
    PromoteKeepsCoherent(t, id, now);
    CoherentIsShaped(Finalize(t, id, Complete, now));
    CoherentIsShaped(t);
    forall j | j in after
      ensures !IsRemovable(after, j)
    {
      RemovableIff(after, j);
      forall i | i in after
        ensures !Touches(i, j)
      {
        PromotedShape(t, id, i);
        PromotedShape(t, id, j);
        NotTouching(t, id, i, j);
      }
    }
  }

  lemma NothingRemovable(intervals: set<Interval>, j: Interval)
    requires Removable(intervals) == {} && j in intervals
    ensures !IsRemovable(intervals, j)
  {
    assert j !in Removable(intervals);
  }

  lemma NotTouching(t: Tables, id: SnapshotId, i: Interval, j: Interval)
    requires Promotable(t, id) && Shaped(t.intervals) && Removable(t.intervals) == {}
    requires i in Promote(t, id).intervals && j in Promote(t, id).intervals
    ensures !Touches(i, j)
  {
    PromotedShape(t, id, i);
    PromotedShape(t, id, j);
    if Touches(i, j) {
      if j.from == id {
        if i in t.intervals {
          BoundariesAreOlder(t, id, i);
        }
        if j in t.intervals {
          BoundariesAreOlder(t, id, j);
        }
        assert false;
      } else {
        var before := if j.to == Id(id) && j !in t.intervals then j.(to := Null) else j;
        assert before in t.intervals && i in t.intervals && Touches(i, before);
        RemovableIff(t.intervals, before);
        NothingRemovable(t.intervals, before);
        assert false;
      }
    }
  }

  /** Delta encoding is minimal: without pruning no run ever leaves a removable row. */
  lemma {:induction false} EncodingIsMinimal(t: Tables, ops: seq<Op>)
    requires Coherent(t) && CanRun(t, ops) && Removable(t.intervals) == {}
    requires forall op :: op in ops ==> !op.Rebase?
    ensures Removable(Run(t, ops).intervals) == {}
    decreases |ops|
  {
    if ops != [] {
      match ops[0] {
        case Finish(id, status, now) =>
          if status == Complete {
            PromoteAddsNothingRemovable(t, id, now);
          }
        case Insert(id, rows) => InsertRowsReads(t, id, rows);
        case _ =>
      }
      EncodingIsMinimal(Apply(t, ops[0]), ops[1..]);
    }
  }

  // ----- which prunes leave something to merge

  /** Two versions of one state, with nothing retained between the end of the first and the start
      of the second. */
  predicate Rejoins(t: Tables, retained: set<SnapshotId>, i: Interval, j: Interval) {
    var kept := Kept(t.snapshots, retained, i.root);
    i.SameKey(j) && i.state == j.state && i.Precedes(j) && Survives(kept, i) && Survives(kept, j) &&
    forall k :: k in kept ==> k < i.to.id || j.from <= k
  }

  lemma RejoinedTouch(t: Tables, retained: set<SnapshotId>, i: Interval, j: Interval)
    requires Coherent(t) && i in t.intervals && j in t.intervals && Rejoins(t, retained, i, j)
    ensures
      var kept := Kept(t.snapshots, retained, i.root);
      Touches(Move(kept, i), Move(kept, j))
  {
    var kept := Kept(t.snapshots, retained, i.root);
    CeilIsLeast(kept, i.to.id, Move(kept, j).from);
  }

  lemma TouchingRejoin(t: Tables, retained: set<SnapshotId>, i: Interval, j: Interval)
    requires Coherent(t) && i in t.intervals && j in t.intervals
    requires
      var kept := Kept(t.snapshots, retained, i.root);
      Survives(kept, i) && Survives(Kept(t.snapshots, retained, j.root), j) &&
      Touches(Move(kept, i), Move(Kept(t.snapshots, retained, j.root), j))
    ensures Rejoins(t, retained, i, j)
  {
    var kept := Kept(t.snapshots, retained, i.root);
    assert WellFormed(t, i) && WellFormed(t, j);
    MovedStaysInside(kept, i);
    MovedStaysInside(kept, j);
    if i.Apart(j) && !i.Precedes(j) {
      MovedPrecedes(kept, j, i);
    }
  }

  /** A prune leaves a removable row exactly when it drops every complete snapshot that stood
      between two equal states of a path. */
  lemma PruneLeavesRemovableIff(t: Tables, retained: set<SnapshotId>)
    requires Coherent(t)
    ensures Removable(NormalizedIntervals(t, retained)) != {} <==>
            exists i, j :: i in t.intervals && j in t.intervals && Rejoins(t, retained, i, j)
  {
    var after := NormalizedIntervals(t, retained);
    NormalizeKeepsCoherent(t, retained);
    CoherentIsShaped(Normalize(t, retained));
    if i, j :| i in t.intervals && j in t.intervals && Rejoins(t, retained, i, j) {
      var kept := Kept(t.snapshots, retained, i.root);
      RejoinedTouch(t, retained, i, j);
      assert Move(kept, i) in after && Move(kept, j) in after;
      RemovableIff(after, Move(kept, j));
      assert Move(kept, j) in Removable(after);
    }
    if n :| n in Removable(after) {
      RemovableIff(after, n);
      var m :| m in after && Touches(m, n);
      var i :| i in t.intervals && Survives(Kept(t.snapshots, retained, i.root), i) &&
               m == Move(Kept(t.snapshots, retained, i.root), i);
      var j :| j in t.intervals && Survives(Kept(t.snapshots, retained, j.root), j) &&
               n == Move(Kept(t.snapshots, retained, j.root), j);
      TouchingRejoin(t, retained, i, j);
    }
  }
}
