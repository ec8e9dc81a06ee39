/** The second phase of the frontier: survivors below a retained survivor are suppressed. */
module SuppressedIndex {
  import opened Models
  import opened Paths
  import opened Dominance
  import opened DominatedIndex

  /** Survivors of the first phase, the largest growth first. */
  predicate IsSurvivorList(s: seq<GrowthRow>) {
    OneScope(s) && UniquePaths(s) &&
    (forall i :: 0 <= i < |s| ==> s[i].diskDelta > 0) &&
    LargestFirst(s) &&
    (forall i, j {:trigger Beats(s[i], s[j])} :: 0 <= i < |s| && 0 <= j < |s| ==> !Beats(s[i], s[j]))
  }

  predicate IsTop(s: seq<GrowthRow>, i: int)
    requires 0 <= i < |s|
  {
    forall k {:trigger Below(s[i], s[k])} :: 0 <= k < |s| ==> !Below(s[i], s[k])
  }

  /** Rows above a survivor come before it. */
  lemma AboveComesFirst(s: seq<GrowthRow>, i: int, k: int)
    requires IsSurvivorList(s) && 0 <= i < |s| && 0 <= k < |s| && Below(s[i], s[k])
    ensures k < i && !Explains(s[i], s[k])
  {
    assert !Beats(s[i], s[k]);
    assert i < k ==> AtLeast(s, i, k);
  }

  lemma {:induction false} TopAbove(s: seq<GrowthRow>, i: int) returns (t: int)
    requires IsSurvivorList(s) && 0 <= i < |s| && !IsTop(s, i)
    ensures 0 <= t < i && IsTop(s, t) && Below(s[i], s[t]) && !Explains(s[i], s[t])
    decreases i
  {
    var k :| 0 <= k < |s| && Below(s[i], s[k]);
    AboveComesFirst(s, i, k);
    if IsTop(s, k) {
      t := k;
    } else {
      t := TopAbove(s, k);
      BelowTransitive(s[i], s[k], s[t]);
      AboveComesFirst(s, i, t);
    }
  }

  lemma SameScope(s: seq<GrowthRow>, i: int, j: int)
    requires IsSurvivorList(s) && 0 <= i < |s| && 0 <= j < |s|
    ensures s[i].scope == s[j].scope
    ensures s[i].path == s[j].path ==> i == j
  {
    assert i < j ==> Differ(s, i, j);
    assert j < i ==> Differ(s, j, i);
  }

  lemma OneTopAbove(s: seq<GrowthRow>, i: int, t: int, u: int)
    requires IsSurvivorList(s) && 0 <= i < |s| && 0 <= t < |s| && 0 <= u < |s| && IsTop(s, t) && IsTop(s, u)
    requires Below(s[i], s[t]) && Below(s[i], s[u])
    ensures t == u
  {
    AncestorsAreComparable(s[i].path, s[t].path, s[u].path);
    assert !Below(s[t], s[u]) && !Below(s[u], s[t]);
    SameScope(s, t, u);
  }

  function CountBelow(s: seq<GrowthRow>, path: Bytes): nat {
    if s == [] then 0
    else CountBelow(s[..|s| - 1], path) + if IsBelow(s[|s| - 1].path, path) then 1 else 0
  }

  /** What the index holds after the first n survivors. */
  ghost predicate Retains(s: seq<GrowthRow>, byPath: map<Bytes, GrowthRow>, n: nat)
    requires n <= |s|
  {
    (forall i {:trigger IsTop(s, i)} :: 0 <= i < n && IsTop(s, i) ==>
      s[i].path in byPath && byPath[s[i].path] == s[i]) &&
    (forall p :: p in byPath ==> exists i {:trigger IsTop(s, i)} :: 0 <= i < n && IsTop(s, i) && s[i].path == p)
  }

  ghost predicate CountsBelow(s: seq<GrowthRow>, byPath: map<Bytes, GrowthRow>, counts: map<Bytes, nat>, n: nat)
    requires n <= |s|
  {
    forall p :: Get(counts, p) == if p in byPath then CountBelow(s[..n], p) else 0
  }

  lemma RetainedAt(s: seq<GrowthRow>, byPath: map<Bytes, GrowthRow>, n: nat, p: Bytes) returns (t: int)
    requires n <= |s| && IsSurvivorList(s) && Retains(s, byPath, n) && p in byPath
    ensures 0 <= t < n && IsTop(s, t) && s[t].path == p && byPath[p] == s[t]
  {
    t :| 0 <= t < n && IsTop(s, t) && s[t].path == p;
  }

  predicate Suppresses(byPath: map<Bytes, GrowthRow>, candidate: GrowthRow, p: Bytes) {
    p in byPath && !Explains(candidate, byPath[p])
  }

  /** Among the retained rows above the candidate that it does not explain, the first retained one. */
  method FirstRetainedSuppressingAncestor(candidate: GrowthRow, byPath: map<Bytes, GrowthRow>, order: map<Bytes, nat>)
    returns (best: Option<Bytes>)
    requires byPath.Keys == order.Keys
    ensures best.Some? ==> IsBelow(candidate.path, best.value) && Suppresses(byPath, candidate, best.value)
    ensures forall p :: IsBelow(candidate.path, p) && Suppresses(byPath, candidate, p) ==>
              best.Some? && order[best.value] <= order[p]
  {
    best := None;
    var ancestor := ParentOf(candidate.path);
    while ancestor.Some?
      invariant forall p :: p in WalkFrom(ancestor) ==> IsBelow(candidate.path, p)
      invariant best.Some? ==> IsBelow(candidate.path, best.value) && Suppresses(byPath, candidate, best.value)
      invariant forall p :: IsBelow(candidate.path, p) && Suppresses(byPath, candidate, p) ==>
                  p in WalkFrom(ancestor) || (best.Some? && order[best.value] <= order[p])
      decreases if ancestor.Some? then 1 + |ancestor.value| else 0
    {
      var p := ancestor.value;
      if p in byPath && !Explains(candidate, byPath[p]) {
        if best.None? || order[p] < order[best.value] {
          best := Some(p);
        }
      }
      ancestor := ParentOf(p);
    }
  }

  // ----- one survivor

  lemma CountOneMore(s: seq<GrowthRow>, n: nat, p: Bytes)
    requires n < |s|
    ensures CountBelow(s[..n + 1], p) == CountBelow(s[..n], p) + if IsBelow(s[n].path, p) then 1 else 0
  {
    assert s[..n + 1][..n] == s[..n];
  }

  lemma {:induction false} NoneBelowUpTo(s: seq<GrowthRow>, n: nat, m: nat)
    requires n < |s| && IsSurvivorList(s) && m <= n + 1
    ensures CountBelow(s[..m], s[n].path) == 0
    decreases m
  {
    if m > 0 {
      NoneBelowUpTo(s, n, m - 1);
      assert s[..m][..m - 1] == s[..m - 1];
      assert s[m - 1].scope == s[n].scope;
      if Below(s[m - 1], s[n]) {
        AboveComesFirst(s, m - 1, n);
      }
    }
  }

  lemma NoneBelowYet(s: seq<GrowthRow>, n: nat)
    requires n < |s| && IsSurvivorList(s)
    ensures CountBelow(s[..n + 1], s[n].path) == 0
  {
    NoneBelowUpTo(s, n, n + 1);
  }

  lemma KeepTopRetains(s: seq<GrowthRow>, byPath: map<Bytes, GrowthRow>, n: nat)
    requires n < |s| && IsSurvivorList(s) && Retains(s, byPath, n) && IsTop(s, n)
    ensures s[n].path !in byPath && Retains(s, byPath[s[n].path := s[n]], n + 1)
  {
    if s[n].path in byPath {
      var t := RetainedAt(s, byPath, n, s[n].path);
      SameScope(s, t, n);
    }
  }

  lemma KeepTop(s: seq<GrowthRow>, byPath: map<Bytes, GrowthRow>, counts: map<Bytes, nat>, n: nat)
    requires n < |s| && IsSurvivorList(s) && Retains(s, byPath, n) && CountsBelow(s, byPath, counts, n) && IsTop(s, n)
    requires s[n].path !in byPath
    ensures CountsBelow(s, byPath[s[n].path := s[n]], counts, n + 1)
  {
    NoneBelowYet(s, n);
    forall p
      ensures Get(counts, p) == if p in byPath || p == s[n].path then CountBelow(s[..n + 1], p) else 0
    {
      CountOneMore(s, n, p);
      if p in byPath {
        var t := RetainedAt(s, byPath, n, p);
        SameScope(s, t, n);
        assert !Below(s[n], s[t]);
      }
    }
  }

  lemma SuppressedBy(s: seq<GrowthRow>, byPath: map<Bytes, GrowthRow>, n: nat, best: Bytes, p: Bytes)
    requires n < |s| && IsSurvivorList(s) && Retains(s, byPath, n)
    requires best in byPath && p in byPath && IsBelow(s[n].path, best) && IsBelow(s[n].path, p)
    ensures p == best && !IsTop(s, n)
  {
    var b := RetainedAt(s, byPath, n, best);
    var t := RetainedAt(s, byPath, n, p);
    SameScope(s, b, n);
    SameScope(s, t, n);
    assert Below(s[n], s[b]);
    OneTopAbove(s, n, b, t);
  }

  lemma SuppressOne(s: seq<GrowthRow>, byPath: map<Bytes, GrowthRow>, counts: map<Bytes, nat>, n: nat, best: Bytes)
    requires n < |s| && IsSurvivorList(s) && Retains(s, byPath, n) && CountsBelow(s, byPath, counts, n)
    requires IsBelow(s[n].path, best) && best in byPath
    ensures Retains(s, byPath, n + 1)
    ensures CountsBelow(s, byPath, counts[best := Get(counts, best) + 1], n + 1)
  {
    SuppressedBy(s, byPath, n, best, best);
    var after := counts[best := Get(counts, best) + 1];
    forall p
      ensures Get(after, p) == if p in byPath then CountBelow(s[..n + 1], p) else 0
    {
      CountOneMore(s, n, p);
      if p in byPath && IsBelow(s[n].path, p) {
        SuppressedBy(s, byPath, n, best, p);
      }
    }
  }

  /** The retained paths are those with no survivor above them, and each counts the survivors
      below it. */
  method SuppressedDescendantIndex(surviving: seq<GrowthRow>) returns (counts: map<Bytes, nat>, retained: set<Bytes>)
    requires IsSurvivorList(surviving)
    ensures forall i :: 0 <= i < |surviving| ==> (surviving[i].path in retained <==> IsTop(surviving, i))
    ensures forall i :: 0 <= i < |surviving| && IsTop(surviving, i) ==>
              Get(counts, surviving[i].path) == CountBelow(surviving, surviving[i].path)
  {
    var byPath: map<Bytes, GrowthRow> := map[];
    var order: map<Bytes, nat> := map[];
    retained := {};
    counts := map[];
    for n := 0 to |surviving|
      invariant Retains(surviving, byPath, n) && CountsBelow(surviving, byPath, counts, n)
      invariant retained == byPath.Keys == order.Keys
    {
      var suppressor := FirstRetainedSuppressingAncestor(surviving[n], byPath, order);
      if suppressor.Some? {
        SuppressOne(surviving, byPath, counts, n, suppressor.value);
        counts := counts[suppressor.value := Get(counts, suppressor.value) + 1];
      } else {
        UnsuppressedIsTop(surviving, byPath, n);
        KeepTopRetains(surviving, byPath, n);
        KeepTop(surviving, byPath, counts, n);
        byPath := byPath[surviving[n].path := surviving[n]];
        order := order[surviving[n].path := n];
        retained := retained + {surviving[n].path};
      }
    }
    assert surviving[..|surviving|] == surviving;
    forall i | 0 <= i < |surviving|
      ensures surviving[i].path in retained <==> IsTop(surviving, i)
    {
      if surviving[i].path in retained {
        var t := RetainedAt(surviving, byPath, |surviving|, surviving[i].path);
        SameScope(surviving, t, i);
      }
    }
  }

  lemma UnsuppressedIsTop(s: seq<GrowthRow>, byPath: map<Bytes, GrowthRow>, n: nat)
    requires n < |s| && IsSurvivorList(s) && Retains(s, byPath, n)
    requires forall p :: IsBelow(s[n].path, p) ==> !Suppresses(byPath, s[n], p)
    ensures IsTop(s, n)
  {
    if !IsTop(s, n) {
      var t := TopAbove(s, n);
      assert Suppresses(byPath, s[n], s[t].path);
      assert false;
    }
  }
}
