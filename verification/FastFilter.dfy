/** The filter of the fast report, which must agree with the frontier. */
module FastFilter {
  import opened Models
  import opened Paths
  import opened Ordering
  import opened Dominance
  import opened DominatedIndex
  import opened Frontier
  import opened FrontierScopes

  datatype ScopePath = ScopePath(scope: Scope, path: Bytes)

  function KeyOf(r: GrowthRow): ScopePath {
    ScopePath(r.scope, r.path)
  }

  /** Dominated by any row, also one that did not grow; only rows that grew are dominated. */
  predicate FastDominated(rows: seq<GrowthRow>, a: GrowthRow) {
    a.diskDelta > 0 && Dominated(rows, a)
  }

  function NotFastDominated(rows: seq<GrowthRow>): GrowthRow -> bool {
    r => !FastDominated(rows, r)
  }

  ghost predicate FastIndexes(rows: seq<GrowthRow>, byKey: map<ScopePath, GrowthRow>) {
    (forall r :: r in rows ==> KeyOf(r) in byKey && byKey[KeyOf(r)] == r) &&
    (forall k :: k in byKey ==> byKey[k] in rows && KeyOf(byKey[k]) == k)
  }

  method FastIndex(rows: seq<GrowthRow>) returns (byKey: map<ScopePath, GrowthRow>)
    requires UniquePaths(rows)
    ensures FastIndexes(rows, byKey)
  {
    byKey := map[];
    for i := 0 to |rows|
      invariant forall k :: 0 <= k < i ==> KeyOf(rows[k]) in byKey && byKey[KeyOf(rows[k])] == rows[k]
      invariant forall k :: k in byKey ==> byKey[k] in rows && KeyOf(byKey[k]) == k
    {
      forall k | 0 <= k < i
        ensures KeyOf(rows[k]) != KeyOf(rows[i])
      {
        assert Differ(rows, k, i);
      }
      byKey := byKey[KeyOf(rows[i]) := rows[i]];
    }
  }

  predicate BeatenAmong(rows: seq<GrowthRow>, n: nat, a: GrowthRow)
    requires n <= |rows|
  {
    exists i {:trigger rows[i]} :: 0 <= i < n && Beats(rows[i], a)
  }

  /** _remove_dominated_fast_ancestors */
  method RemoveDominatedFastAncestors(rows: seq<GrowthRow>) returns (kept: seq<GrowthRow>)
    requires UniquePaths(rows)
    ensures kept == Filter(NotFastDominated(rows), rows)
  {
    var byKey := FastIndex(rows);
    var dominated: set<ScopePath> := {};
    for n := 0 to |rows|
      invariant forall k :: k in dominated <==> k in byKey && byKey[k].diskDelta > 0 && BeatenAmong(rows, n, byKey[k])
    {
      ghost var before := dominated;
      var d := rows[n];
      var ancestor := ParentOf(d.path);
      while ancestor.Some?
        invariant forall p :: p in WalkFrom(ancestor) ==> IsBelow(d.path, p)
        invariant forall k :: k in dominated ==> k in before || FastBeats(byKey, d, k)
        invariant forall k :: k in before ==> k in dominated
        invariant forall k :: FastBeats(byKey, d, k) ==> k in dominated || k.path in WalkFrom(ancestor)
        decreases if ancestor.Some? then 1 + |ancestor.value| else 0
      {
        var key := ScopePath(d.scope, ancestor.value);
        if key in byKey && byKey[key].diskDelta > 0 && Explains(d, byKey[key]) {
          dominated := dominated + {key};
        }
        ancestor := ParentOf(ancestor.value);
      }
      forall k | k in byKey
        ensures BeatenAmong(rows, n + 1, byKey[k]) <==> BeatenAmong(rows, n, byKey[k]) || Beats(d, byKey[k])
      {
      }
    }
    kept := [];
    for i := 0 to |rows|
      invariant kept == Filter(NotFastDominated(rows), rows[..i])
    {
      assert rows[..i + 1][..i] == rows[..i];
      FastDominatedIs(rows, byKey, dominated, rows[i]);
      if KeyOf(rows[i]) !in dominated {
        kept := kept + [rows[i]];
      }
    }
    assert rows[..|rows|] == rows;
  }

  predicate FastBeats(byKey: map<ScopePath, GrowthRow>, d: GrowthRow, k: ScopePath) {
    k in byKey && k.scope == d.scope && IsBelow(d.path, k.path) && byKey[k].diskDelta > 0 && Explains(d, byKey[k])
  }

  lemma FastDominatedIs(rows: seq<GrowthRow>, byKey: map<ScopePath, GrowthRow>, dominated: set<ScopePath>, r: GrowthRow)
    requires FastIndexes(rows, byKey) && r in rows
    requires forall k :: k in dominated <==> k in byKey && byKey[k].diskDelta > 0 && BeatenAmong(rows, |rows|, byKey[k])
    ensures KeyOf(r) in dominated <==> FastDominated(rows, r)
  {
  }

  // ----- agreement with the frontier

  predicate GrewOnDisk(r: GrowthRow) {
    r.diskDelta > 0
  }

  function GrownRows(rows: seq<GrowthRow>): seq<GrowthRow> {
    Filter(GrewOnDisk, rows)
  }

  /** Only a row that grew beats one that grew. */
  lemma FastDominatedIff(rows: seq<GrowthRow>, r: GrowthRow)
    requires r.diskDelta > 0
    ensures FastDominated(rows, r) <==> Dominated(GrownRows(rows), r)
  {
    if d :| d in rows && Beats(d, r) {
      FilterMember(GrewOnDisk, rows, d);
    }
    if d :| d in GrownRows(rows) && Beats(d, r) {
      FilterMember(GrewOnDisk, rows, d);
    }
  }

  /** Whatever else the rows hold, the fast filter keeps of the rows that grew on disk those that
      survive among them, in their order, and it keeps every other row. */
  lemma FastFilterAgrees(rows: seq<GrowthRow>)
    ensures GrownRows(Filter(NotFastDominated(rows), rows)) == Survivors(GrownRows(rows), GrownRows(rows))
    ensures forall r :: r in rows && r.diskDelta <= 0 ==> r in Filter(NotFastDominated(rows), rows)
  {
    FiltersAgree(rows, rows);
    forall r | r in rows && r.diskDelta <= 0
      ensures r in Filter(NotFastDominated(rows), rows)
    {
      FilterMember(NotFastDominated(rows), rows, r);
    }
  }

  lemma {:induction false} FiltersAgree(all: seq<GrowthRow>, rows: seq<GrowthRow>)
    ensures GrownRows(Filter(NotFastDominated(all), rows)) == Survivors(GrownRows(all), GrownRows(rows))
    decreases |rows|
  {
    if rows != [] {
      var init, last := rows[..|rows| - 1], rows[|rows| - 1];
      FiltersAgree(all, init);
      if last.diskDelta > 0 {
        FastDominatedIff(all, last);
      }
      if NotFastDominated(all)(last) {
        var kept := Filter(NotFastDominated(all), init);
        assert (kept + [last])[..|kept|] == kept;
      }
      if GrewOnDisk(last) {
        var grown := GrownRows(init);
        assert (grown + [last])[..|grown|] == grown;
      }
    }
  }

  /** When what grew on disk is classified as created or grown, these are the survivors of the frontier. */
  lemma FastFilterKeepsFrontierSurvivors(rows: seq<GrowthRow>)
    requires forall r :: r in rows && r.diskDelta > 0 ==> r.classification == Created || r.classification == Grown
    ensures GrownRows(Filter(NotFastDominated(rows), rows)) == Survivors(Positive(rows), Positive(rows))
  {
    SameFilter(rows);
    FastFilterAgrees(rows);
  }

  lemma {:induction false} SameFilter(rows: seq<GrowthRow>)
    requires forall r :: r in rows && r.diskDelta > 0 ==> r.classification == Created || r.classification == Grown
    ensures Positive(rows) == GrownRows(rows)
    decreases |rows|
  {
    if rows != [] {
      SameFilter(rows[..|rows| - 1]);
    }
  }
}
