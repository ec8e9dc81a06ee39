/** The growth frontier of one scope. */
module Frontier {
  import opened Models
  import opened Paths
  import opened Ordering
  import opened Dominance
  import opened DominatedIndex
  import opened SuppressedIndex

  // ----- survivors of the first phase, in order

  function NotDominated(all: seq<GrowthRow>): GrowthRow -> bool {
    r => !Dominated(all, r)
  }

  function Survivors(all: seq<GrowthRow>, rows: seq<GrowthRow>): seq<GrowthRow> {
    Filter(NotDominated(all), rows)
  }

  /** Candidates of one scope, the largest growth first. */
  predicate IsCandidateList(c: seq<GrowthRow>) {
    OneScope(c) && UniquePaths(c) &&
    LargestFirst(c) && forall i :: 0 <= i < |c| ==> c[i].diskDelta > 0
  }

  lemma SurvivorsAreList(c: seq<GrowthRow>)
    requires IsCandidateList(c)
    ensures IsSurvivorList(Survivors(c, c))
  {
    var s := Survivors(c, c);
    var keep := NotDominated(c);
    forall i | 0 <= i < |s|
      ensures s[i].diskDelta > 0 && s[i].scope == c[0].scope && s[i] in c && !Dominated(c, s[i])
    {
      SourceIs(keep, c, i);
      FilterMember(keep, c, s[i]);
    }
    forall i, j | 0 <= i < j < |s|
      ensures AtLeast(s, i, j) && Differ(s, i, j)
    {
      SourceIs(keep, c, i);
      SourceIs(keep, c, j);
      SourcesIncrease(keep, c, i, j);
      assert AtLeast(c, Source(keep, c, i), Source(keep, c, j)) && Differ(c, Source(keep, c, i), Source(keep, c, j));
    }
  }

  lemma TopIsFrontier(c: seq<GrowthRow>, i: int)
    requires 0 <= i < |Survivors(c, c)|
    ensures IsTop(Survivors(c, c), i) <==> OnFrontier(c, Survivors(c, c)[i])
  {
    var s := Survivors(c, c);
    FilterMember(NotDominated(c), c, s[i]);
    if IsTop(s, i) {
      forall a | a in c && Below(s[i], a)
        ensures Dominated(c, a)
      {
        FilterMember(NotDominated(c), c, a);
      }
    }
    if OnFrontier(c, s[i]) {
      forall k | 0 <= k < |s|
        ensures !Below(s[i], s[k])
      {
        FilterMember(NotDominated(c), c, s[k]);
      }
    }
  }

  // ----- counts

  datatype Reason = DominatesAndHides | DominatesAncestors | HidesDescendants | HighestSignal

  function ReasonForCounts(suppressedDescendants: int, suppressedAncestors: int): Reason {
    if suppressedAncestors != 0 && suppressedDescendants != 0 then DominatesAndHides
    else if suppressedAncestors != 0 then DominatesAncestors
    else if suppressedDescendants != 0 then HidesDescendants
    else HighestSignal
  }

  datatype FrontierRow = FrontierRow(
    row: GrowthRow,
    suppressedDescendants: nat,
    suppressedAncestors: nat,
    reason: Reason)

  /** The candidates that the row at the path is the first to beat. */
  function FirstBeatenBy(c: seq<GrowthRow>, path: Bytes): set<Bytes> {
    set a | a in c && IsFirstToBeat(c, a, path) :: a.path
  }

  predicate IsFirstToBeat(c: seq<GrowthRow>, a: GrowthRow, path: Bytes) {
    var first := FirstBeating(c, a, |c|);
    first >= 0 && c[first].path == path
  }

  lemma CreditsAreFirstBeaten(c: seq<GrowthRow>, best: map<Bytes, GrowthRow>, path: Bytes)
    requires UniquePaths(c) && OneScope(c) && Credits(c, best, |c|)
    ensures BeatenPaths(best, path) == FirstBeatenBy(c, path)
  {
  }

  /** What the frontier says about one row. */
  predicate Reports(c: seq<GrowthRow>, f: FrontierRow) {
    OnFrontier(c, f.row) &&
    f.suppressedDescendants == CountBelow(Survivors(c, c), f.row.path) &&
    f.suppressedAncestors == |FirstBeatenBy(c, f.row.path)| &&
    f.reason == ReasonForCounts(f.suppressedDescendants, f.suppressedAncestors)
  }

  lemma {:induction false} CountBelowIff(s: seq<GrowthRow>, path: Bytes)
    ensures CountBelow(s, path) > 0 <==> exists i :: 0 <= i < |s| && IsBelow(s[i].path, path)
    decreases |s|
  {
    if s != [] {
      var init := s[..|s| - 1];
      CountBelowIff(init, path);
      assert forall i :: 0 <= i < |init| ==> init[i] == s[i];
    }
  }

  /** A survivor is below the row. */
  predicate HidesSurvivor(c: seq<GrowthRow>, r: GrowthRow) {
    var s := Survivors(c, c);
    exists i :: 0 <= i < |s| && IsBelow(s[i].path, r.path)
  }

  /** The row is the first of the candidates to beat some other one. */
  predicate BeatsSomeFirst(c: seq<GrowthRow>, r: GrowthRow) {
    exists a :: a in c && IsFirstToBeat(c, a, r.path)
  }

  /** The reason names what the row stands for: survivors below it, and candidates that it is the first to
      beat. */
  lemma ReasonMeans(c: seq<GrowthRow>, f: FrontierRow)
    requires Reports(c, f)
    ensures f.reason == HidesDescendants <==> HidesSurvivor(c, f.row) && !BeatsSomeFirst(c, f.row)
    ensures f.reason == DominatesAncestors <==> !HidesSurvivor(c, f.row) && BeatsSomeFirst(c, f.row)
    ensures f.reason == DominatesAndHides <==> HidesSurvivor(c, f.row) && BeatsSomeFirst(c, f.row)
    ensures f.reason == HighestSignal <==> !HidesSurvivor(c, f.row) && !BeatsSomeFirst(c, f.row)
  {
    CountBelowIff(Survivors(c, c), f.row.path);
    BeatenIff(c, f.row);
  }

  lemma BeatenIff(c: seq<GrowthRow>, r: GrowthRow)
    ensures |FirstBeatenBy(c, r.path)| > 0 <==> BeatsSomeFirst(c, r)
  {
    var beaten := FirstBeatenBy(c, r.path);
    if a :| a in c && IsFirstToBeat(c, a, r.path) {
      assert a.path in beaten;
    }
    if |beaten| > 0 {
      var p :| p in beaten;
    }
  }

  /** The retained rows among the first n survivors. */
  function Tops(s: seq<GrowthRow>, n: nat): seq<GrowthRow>
    requires n <= |s|
  {
    if n == 0 then [] else if IsTop(s, n - 1) then Tops(s, n - 1) + [s[n - 1]] else Tops(s, n - 1)
  }

  function RowsIn(entries: seq<FrontierRow>): (rows: seq<GrowthRow>)
    ensures |rows| == |entries|
    ensures forall i :: 0 <= i < |entries| ==> rows[i] == entries[i].row
  {
    seq(|entries|, i requires 0 <= i < |entries| => entries[i].row)
  }

  /** The candidates whose path is not dominated. */
  method SelectSurvivors(c: seq<GrowthRow>, dominated: set<Bytes>) returns (surviving: seq<GrowthRow>)
    requires forall a :: a in c ==> (a.path in dominated <==> Dominated(c, a))
    ensures surviving == Survivors(c, c)
  {
    surviving := [];
    for i := 0 to |c|
      invariant surviving == Survivors(c, c[..i])
    {
      assert c[..i + 1][..i] == c[..i];
      if c[i].path !in dominated {
        surviving := surviving + [c[i]];
      }
    }
    assert c[..|c|] == c;
  }

  function EntryFor(row: GrowthRow, descendants: nat, ancestors: nat): FrontierRow {
    FrontierRow(row, descendants, ancestors, ReasonForCounts(descendants, ancestors))
  }

  lemma EntryReports(c: seq<GrowthRow>, best: map<Bytes, GrowthRow>, n: nat, descendants: nat, ancestors: nat)
    requires IsCandidateList(c) && Credits(c, best, |c|) && n < |Survivors(c, c)| && IsTop(Survivors(c, c), n)
    requires
      var path := Survivors(c, c)[n].path;
      descendants == CountBelow(Survivors(c, c), path) && ancestors == BeatenFirstBy(best, path)
    ensures Reports(c, EntryFor(Survivors(c, c)[n], descendants, ancestors))
  {
    TopIsFrontier(c, n);
    CreditsAreFirstBeaten(c, best, Survivors(c, c)[n].path);
  }

  lemma RowsInLast(entries: seq<FrontierRow>, f: FrontierRow)
    ensures RowsIn(entries + [f]) == RowsIn(entries) + [f.row]
  {
  }

  /** The entries for the retained rows among the first n survivors. */
  function Entries(s: seq<GrowthRow>, best: map<Bytes, GrowthRow>, n: nat): seq<FrontierRow>
    requires n <= |s|
  {
    if n == 0 then []
    else
      var row := s[n - 1];
      if IsTop(s, n - 1) then
        Entries(s, best, n - 1) + [EntryFor(row, CountBelow(s, row.path), BeatenFirstBy(best, row.path))]
      else Entries(s, best, n - 1)
  }

  lemma {:induction false} EntriesAreTops(s: seq<GrowthRow>, best: map<Bytes, GrowthRow>, n: nat)
    requires n <= |s|
    ensures RowsIn(Entries(s, best, n)) == Tops(s, n)
    decreases n
  {
    if n > 0 {
      EntriesAreTops(s, best, n - 1);
      var before, row := Entries(s, best, n - 1), s[n - 1];
      if IsTop(s, n - 1) {
        RowsInLast(before, EntryFor(row, CountBelow(s, row.path), BeatenFirstBy(best, row.path)));
      }
    }
  }

  lemma {:induction false} EntriesReport(c: seq<GrowthRow>, best: map<Bytes, GrowthRow>, n: nat, f: FrontierRow)
    requires IsCandidateList(c) && Credits(c, best, |c|) && n <= |Survivors(c, c)|
    requires f in Entries(Survivors(c, c), best, n)
    ensures Reports(c, f)
    decreases n
  {
    var s := Survivors(c, c);
    if f in Entries(s, best, n - 1) {
      EntriesReport(c, best, n - 1, f);
    } else {
      EntryReports(c, best, n - 1, CountBelow(s, s[n - 1].path), BeatenFirstBy(best, s[n - 1].path));
    }
  }

  /** The frontier of one scope. */
  method PruneScope(c: seq<GrowthRow>) returns (result: seq<FrontierRow>)
    requires IsCandidateList(c)
    ensures RowsIn(result) == Tops(Survivors(c, c), |Survivors(c, c)|)
    ensures forall f :: f in result ==> Reports(c, f)
    ensures TotalOf(result) == |Survivors(c, c)|
  {
    var dominated, ancestorCounts;
    ghost var best;
    dominated, ancestorCounts, best := DominatedAncestorIndex(c);
    var surviving := SelectSurvivors(c, dominated);
    SurvivorsAreList(c);
    var descendantCounts, retained := SuppressedDescendantIndex(surviving);
    result := CollectRetained(best, surviving, retained, descendantCounts, ancestorCounts);
    EntriesAreTops(surviving, best, |surviving|);
    SurvivorsAreConserved(c, best);
    forall f | f in result
      ensures Reports(c, f)
    {
      EntriesReport(c, best, |surviving|, f);
    }
  }

  method CollectRetained(ghost best: map<Bytes, GrowthRow>, surviving: seq<GrowthRow>, retained: set<Bytes>,
                         descendantCounts: map<Bytes, nat>, ancestorCounts: map<Bytes, nat>)
    returns (result: seq<FrontierRow>)
    requires forall i :: 0 <= i < |surviving| ==> (surviving[i].path in retained <==> IsTop(surviving, i))
    requires forall i {:trigger IsTop(surviving, i)} :: 0 <= i < |surviving| && IsTop(surviving, i) ==>
               Get(descendantCounts, surviving[i].path) == CountBelow(surviving, surviving[i].path)
    requires forall path :: Get(ancestorCounts, path) == BeatenFirstBy(best, path)
    ensures result == Entries(surviving, best, |surviving|)
  {
    result := [];
    for n := 0 to |surviving|
      invariant result == Entries(surviving, best, n)
    {
      var row := surviving[n];
      if row.path in retained {
        var descendants, ancestors := Get(descendantCounts, row.path), Get(ancestorCounts, row.path);
        result := result + [EntryFor(row, descendants, ancestors)];
      }
    }
  }

  lemma {:induction false} TopsMember(s: seq<GrowthRow>, n: nat, r: GrowthRow)
    requires n <= |s|
    ensures r in Tops(s, n) <==> exists i {:trigger IsTop(s, i)} :: 0 <= i < n && IsTop(s, i) && s[i] == r
    decreases n
  {
    if n > 0 {
      TopsMember(s, n - 1, r);
      if IsTop(s, n - 1) && s[n - 1] == r {
        assert r in Tops(s, n);
      }
    }
  }

  /** The rows of the result are exactly the frontier. */
  lemma TopsAreFrontier(c: seq<GrowthRow>, r: GrowthRow)
    ensures r in Tops(Survivors(c, c), |Survivors(c, c)|) <==> OnFrontier(c, r)
  {
    var s := Survivors(c, c);
    TopsMember(s, |s|, r);
    FilterMember(NotDominated(c), c, r);
    forall i | 0 <= i < |s|
      ensures IsTop(s, i) <==> OnFrontier(c, s[i])
    {
      TopIsFrontier(c, i);
    }
    if OnFrontier(c, r) {
      var i :| 0 <= i < |s| && s[i] == r;
      assert IsTop(s, i);
    }
  }

  // ----- every survivor is counted once

  function TotalOf(entries: seq<FrontierRow>): nat {
    if entries == [] then 0 else TotalOf(entries[..|entries| - 1]) + 1 + entries[|entries| - 1].suppressedDescendants
  }

  /** How many of the first n survivors that are retained are at or above survivor i. */
  function Hits(s: seq<GrowthRow>, i: nat, n: nat): nat
    requires i < |s| && n <= |s|
  {
    if n == 0 then 0 else Hits(s, i, n - 1) + if Covers(s, n - 1, i) then 1 else 0
  }

  predicate Covers(s: seq<GrowthRow>, t: int, i: int)
    requires 0 <= t < |s| && 0 <= i < |s|
  {
    IsTop(s, t) && (i == t || Below(s[i], s[t]))
  }

  lemma {:induction false} OneHit(s: seq<GrowthRow>, i: nat, t: nat, n: nat)
    requires IsSurvivorList(s) && i < |s| && t < |s| && n <= |s| && Covers(s, t, i)
    ensures Hits(s, i, n) == if t < n then 1 else 0
    decreases n
  {
    if n > 0 {
      OneHit(s, i, t, n - 1);
      var u := n - 1;
      if Covers(s, u, i) && i != t && i != u {
        OneTopAbove(s, i, t, u);
      }
    }
  }

  lemma CoveredOnce(s: seq<GrowthRow>, i: nat)
    requires IsSurvivorList(s) && i < |s|
    ensures Hits(s, i, |s|) == 1
  {
    if IsTop(s, i) {
      OneHit(s, i, i, |s|);
    } else {
      var t := TopAbove(s, i);
      OneHit(s, i, t, |s|);
    }
  }

  /** The first m survivors, each counted at every retained row among the first n that covers it. */
  function Covered(s: seq<GrowthRow>, n: nat, m: nat): nat
    requires n <= |s| && m <= |s|
  {
    if m == 0 then 0 else Covered(s, n, m - 1) + Hits(s, m - 1, n)
  }

  lemma {:induction false} CoveredAll(s: seq<GrowthRow>, m: nat)
    requires IsSurvivorList(s) && m <= |s|
    ensures Covered(s, |s|, m) == m
    decreases m
  {
    if m > 0 {
      CoveredAll(s, m - 1);
      CoveredOnce(s, m - 1);
    }
  }

  /** How many of the first m survivors row n covers, when it is retained. */
  function CoveredBy(s: seq<GrowthRow>, n: nat, m: nat): nat
    requires n < |s| && m <= |s|
  {
    if IsTop(s, n) then CountBelow(s[..m], s[n].path) + (if n < m then 1 else 0) else 0
  }

  lemma CoveredByNext(s: seq<GrowthRow>, n: nat, m: nat)
    requires IsSurvivorList(s) && n < |s| && m < |s|
    ensures CoveredBy(s, n, m + 1) == CoveredBy(s, n, m) + if Covers(s, n, m) then 1 else 0
  {
    CountOneMore(s, m, s[n].path);
    SameScope(s, m, n);
  }

  lemma {:induction false} CoveredByOneMore(s: seq<GrowthRow>, n: nat, m: nat)
    requires IsSurvivorList(s) && n < |s| && m <= |s|
    ensures Covered(s, n + 1, m) == Covered(s, n, m) + CoveredBy(s, n, m)
    decreases m
  {
    if m > 0 {
      CoveredByOneMore(s, n, m - 1);
      CoveredByNext(s, n, m - 1);
    }
  }

  lemma {:induction false} CoveredNone(s: seq<GrowthRow>, m: nat)
    requires m <= |s|
    ensures Covered(s, 0, m) == 0
    decreases m
  {
    if m > 0 {
      CoveredNone(s, m - 1);
    }
  }

  lemma EntriesTotalNext(s: seq<GrowthRow>, best: map<Bytes, GrowthRow>, n: nat)
    requires n < |s|
    ensures TotalOf(Entries(s, best, n + 1)) == TotalOf(Entries(s, best, n)) + CoveredBy(s, n, |s|)
  {
    var before, entries := Entries(s, best, n), Entries(s, best, n + 1);
    assert s[..|s|] == s;
    if IsTop(s, n) {
      assert entries[..|entries| - 1] == before;
    }
  }

  lemma {:induction false} EntriesTotal(s: seq<GrowthRow>, best: map<Bytes, GrowthRow>, n: nat)
    requires IsSurvivorList(s) && n <= |s|
    ensures TotalOf(Entries(s, best, n)) == Covered(s, n, |s|)
    decreases n
  {
    if n == 0 {
      CoveredNone(s, |s|);
    } else {
      EntriesTotal(s, best, n - 1);
      EntriesTotalNext(s, best, n - 1);
      CoveredByOneMore(s, n - 1, |s|);
    }
  }

  /** Retained rows and the rows they suppress are together all the survivors. */
  lemma SurvivorsAreConserved(c: seq<GrowthRow>, best: map<Bytes, GrowthRow>)
    requires IsCandidateList(c)
    ensures TotalOf(Entries(Survivors(c, c), best, |Survivors(c, c)|)) == |Survivors(c, c)|
  {
    var s := Survivors(c, c);
    SurvivorsAreList(c);
    EntriesTotal(s, best, |s|);
    CoveredAll(s, |s|);
  }
}
