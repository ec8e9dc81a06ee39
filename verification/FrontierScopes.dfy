/** prune_growth_frontier: the frontiers of all scopes together. */
module FrontierScopes {
  import opened Paths
  import opened Ordering
  import opened Dominance
  import opened Frontier

  predicate IsPositive(r: GrowthRow) {
    (r.classification == Created || r.classification == Grown) && r.diskDelta > 0
  }

  function Positive(rows: seq<GrowthRow>): seq<GrowthRow> {
    Filter(IsPositive, rows)
  }

  predicate ScopeLess(a: Scope, b: Scope) {
    BytesLess(a.rootPath, b.rootPath) ||
    (a.rootPath == b.rootPath &&
     (a.baseline < b.baseline || (a.baseline == b.baseline && a.current < b.current)))
  }

  /** The most growth first, then the deepest, then by scope and path. */
  predicate CandidateLess(a: GrowthRow, b: GrowthRow) {
    a.diskDelta > b.diskDelta ||
    (a.diskDelta == b.diskDelta &&
     (a.depth > b.depth ||
      (a.depth == b.depth &&
       (ScopeLess(a.scope, b.scope) || (a.scope == b.scope && BytesLess(a.path, b.path))))))
  }

  predicate EntryLess(f: FrontierRow, g: FrontierRow) {
    var a, b := f.row, g.row;
    a.diskDelta > b.diskDelta ||
    (a.diskDelta == b.diskDelta && (a.depth > b.depth || (a.depth == b.depth && BytesLess(a.path, b.path))))
  }

  lemma CandidateOrder(a: GrowthRow, b: GrowthRow, c: GrowthRow)
    ensures CandidateLess(a, b) ==> !CandidateLess(b, a)
    ensures CandidateLess(a, b) && CandidateLess(b, c) ==> CandidateLess(a, c)
  {
    BytesLessIsStrict(a.path, b.path, c.path);
    BytesLessIsStrict(a.scope.rootPath, b.scope.rootPath, c.scope.rootPath);
  }

  lemma CandidateLessIsStrict()
    ensures StrictOrder(CandidateLess)
  {
    forall a, b, c
      ensures CandidateLess(a, b) ==> !CandidateLess(b, a)
      ensures CandidateLess(a, b) && CandidateLess(b, c) ==> CandidateLess(a, c)
    {
      CandidateOrder(a, b, c);
    }
  }

  lemma EntryLessIsStrict()
    ensures StrictOrder(EntryLess)
  {
    forall a: FrontierRow, b: FrontierRow, c: FrontierRow
      ensures EntryLess(a, b) ==> !EntryLess(b, a)
      ensures EntryLess(a, b) && EntryLess(b, c) ==> EntryLess(a, c)
    {
      BytesLessIsStrict(a.row.path, b.row.path, c.row.path);
    }
  }

  function Candidates(rows: seq<GrowthRow>): seq<GrowthRow> {
    Sort(CandidateLess, Positive(rows))
  }

  function OfScope(scope: Scope): GrowthRow -> bool {
    (r: GrowthRow) => r.scope == scope
  }

  function InScope(rows: seq<GrowthRow>, scope: Scope): seq<GrowthRow> {
    Filter(OfScope(scope), rows)
  }

  lemma FilterIsUnique(keep: GrowthRow -> bool, rows: seq<GrowthRow>)
    requires UniquePaths(rows)
    ensures UniquePaths(Filter(keep, rows))
  {
    var kept := Filter(keep, rows);
    forall i, j | 0 <= i < j < |kept|
      ensures Differ(kept, i, j)
    {
      SourceIs(keep, rows, i);
      SourceIs(keep, rows, j);
      SourcesIncrease(keep, rows, i, j);
      assert Differ(rows, Source(keep, rows, i), Source(keep, rows, j));
    }
  }

  lemma {:induction false} UniqueMeansOnce(rows: seq<GrowthRow>, r: GrowthRow)
    requires UniquePaths(rows)
    ensures multiset(rows)[r] <= 1
    decreases |rows|
  {
    if rows != [] {
      var init, last := rows[..|rows| - 1], rows[|rows| - 1];
      assert rows == init + [last];
      forall i, j | 0 <= i < j < |init|
        ensures Differ(init, i, j)
      {
        assert Differ(rows, i, j);
      }
      UniqueMeansOnce(init, r);
      if r in multiset(init) {
        var i :| 0 <= i < |init| && init[i] == r;
        assert Differ(rows, i, |init|);
      }
    }
  }

  lemma PermutationIsUnique(rows: seq<GrowthRow>, permuted: seq<GrowthRow>)
    requires UniquePaths(rows) && multiset(rows) == multiset(permuted)
    ensures UniquePaths(permuted)
  {
    forall i, j | 0 <= i < j < |permuted|
      ensures Differ(permuted, i, j)
    {
      if !Differ(permuted, i, j) {
        assert permuted[i] in multiset(rows) && permuted[j] in multiset(rows);
        SamePathSameRow(rows, permuted[i], permuted[j]);
        TwiceInMultiset(permuted, i, j);
        UniqueMeansOnce(rows, permuted[i]);
        assert false;
      }
    }
  }

  lemma CandidatesAreList(rows: seq<GrowthRow>, scope: Scope)
    requires UniquePaths(rows)
    ensures IsCandidateList(InScope(Candidates(rows), scope))
  {
    var c := Candidates(rows);
    var group := InScope(c, scope);
    var keep := OfScope(scope);
    FilterIsUnique(IsPositive, rows);
    PermutationIsUnique(Positive(rows), c);
    FilterIsUnique(keep, c);
    CandidateLessIsStrict();
    SortIsSorted(CandidateLess, Positive(rows));
    forall i | 0 <= i < |group|
      ensures group[i].scope == scope && group[i].diskDelta > 0
    {
      FilterMember(keep, c, group[i]);
      SortMembers(CandidateLess, Positive(rows), group[i]);
      FilterMember(IsPositive, rows, group[i]);
    }
    forall i, j | 0 <= i < j < |group|
      ensures AtLeast(group, i, j)
    {
      SourceIs(keep, c, i);
      SourceIs(keep, c, j);
      SourcesIncrease(keep, c, i, j);
      assert !CandidateLess(c[Source(keep, c, j)], c[Source(keep, c, i)]);
    }
  }

  /** Dominance and the frontier look at one scope at a time, and at the rows in any order. */
  lemma ScopeDecides(rows: seq<GrowthRow>, r: GrowthRow)
    ensures OnFrontier(InScope(Candidates(rows), r.scope), r) <==> OnFrontier(Positive(rows), r)
  {
    var group, all := InScope(Candidates(rows), r.scope), Positive(rows);
    forall x: GrowthRow
      ensures x in group <==> x in all && x.scope == r.scope
    {
      FilterMember(OfScope(r.scope), Candidates(rows), x);
      SortMembers(CandidateLess, Positive(rows), x);
    }
    forall x: GrowthRow | x.scope == r.scope
      ensures Dominated(group, x) <==> Dominated(all, x)
    {
    }
  }

  predicate Distinct(scopes: seq<Scope>) {
    forall i, j :: 0 <= i < j < |scopes| ==> scopes[i] != scopes[j]
  }

  method GroupByScope(candidates: seq<GrowthRow>) returns (order: seq<Scope>, groups: map<Scope, seq<GrowthRow>>)
    ensures Distinct(order) && forall s :: s in order <==> s in groups
    ensures forall s :: s in groups ==> groups[s] == InScope(candidates, s)
    ensures forall r :: r in candidates ==> r.scope in groups
  {
    order, groups := [], map[];
    for i := 0 to |candidates|
      invariant Distinct(order) && forall s :: s in order <==> s in groups
      invariant forall s :: s in groups ==> groups[s] == InScope(candidates[..i], s)
      invariant forall s :: s !in groups ==> InScope(candidates[..i], s) == []
      invariant forall k :: 0 <= k < i ==> candidates[k].scope in groups
    {
      var row := candidates[i];
      assert candidates[..i + 1][..i] == candidates[..i];
      if row.scope !in groups {
        order := order + [row.scope];
        groups := groups[row.scope := []];
      }
      groups := groups[row.scope := groups[row.scope] + [row]];
    }
    assert candidates[..|candidates|] == candidates;
  }

  predicate Reported(entries: seq<FrontierRow>, r: GrowthRow) {
    exists f :: f in entries && f.row == r
  }

  /** The entries report frontier rows with the right counts, and all those of the given scopes. */
  ghost predicate ReportsScopes(rows: seq<GrowthRow>, scopes: seq<Scope>, entries: seq<FrontierRow>) {
    (forall f :: f in entries ==> Reports(InScope(Candidates(rows), f.row.scope), f)) &&
    (forall r: GrowthRow {:trigger Reported(entries, r)} {:trigger OnFrontier(Positive(rows), r)} ::
      OnFrontier(Positive(rows), r) && r.scope in scopes ==> Reported(entries, r))
  }

  lemma RowsInMember(entries: seq<FrontierRow>, r: GrowthRow)
    ensures r in RowsIn(entries) <==> Reported(entries, r)
  {
  }

  lemma ScopeEntries(rows: seq<GrowthRow>, scope: Scope, entries: seq<FrontierRow>)
    requires
      var c := InScope(Candidates(rows), scope);
      RowsIn(entries) == Tops(Survivors(c, c), |Survivors(c, c)|) && forall f :: f in entries ==> Reports(c, f)
    ensures ReportsScopes(rows, [scope], entries)
  {
    var c := InScope(Candidates(rows), scope);
    forall f | f in entries
      ensures f.row.scope == scope
    {
      FilterMember(OfScope(scope), Candidates(rows), f.row);
    }
    forall r: GrowthRow | OnFrontier(Positive(rows), r) && r.scope in [scope]
      ensures Reported(entries, r)
    {
      ScopeDecides(rows, r);
      TopsAreFrontier(c, r);
      RowsInMember(entries, r);
    }
  }

  lemma MoreScopes(rows: seq<GrowthRow>, scopes: seq<Scope>, more: seq<Scope>, a: seq<FrontierRow>, b: seq<FrontierRow>)
    requires ReportsScopes(rows, scopes, a) && ReportsScopes(rows, more, b)
    ensures ReportsScopes(rows, scopes + more, a + b)
  {
  }

  // ----- no row is reported twice

  lemma {:induction false} TopsAreUnique(s: seq<GrowthRow>, n: nat)
    requires UniquePaths(s) && n <= |s|
    ensures UniquePaths(Tops(s, n))
    decreases n
  {
    if n > 0 {
      TopsAreUnique(s, n - 1);
      var before := Tops(s, n - 1);
      forall i | 0 <= i < |before|
        ensures before[i].scope != s[n - 1].scope || before[i].path != s[n - 1].path
      {
        TopsMember(s, n - 1, before[i]);
        var k :| 0 <= k < n - 1 && s[k] == before[i];
        assert Differ(s, k, n - 1);
      }
      AppendedIsUnique(before, [s[n - 1]]);
    }
  }

  lemma AppendedIsUnique(a: seq<GrowthRow>, b: seq<GrowthRow>)
    requires UniquePaths(a) && UniquePaths(b)
    requires forall i, j :: 0 <= i < |a| && 0 <= j < |b| ==> a[i].scope != b[j].scope || a[i].path != b[j].path
    ensures UniquePaths(a + b)
  {
    forall i, j | 0 <= i < j < |a + b|
      ensures Differ(a + b, i, j)
    {
      assert j < |a| ==> Differ(a, i, j);
      assert i >= |a| ==> Differ(b, i - |a|, j - |a|);
    }
  }

  lemma EntriesAreUnique(rows: seq<GrowthRow>, scope: Scope, entries: seq<FrontierRow>)
    requires UniquePaths(rows)
    requires
      var c := InScope(Candidates(rows), scope);
      RowsIn(entries) == Tops(Survivors(c, c), |Survivors(c, c)|)
    ensures UniquePaths(RowsIn(entries))
    ensures forall i :: 0 <= i < |entries| ==> entries[i].row.scope == scope
  {
    var c := InScope(Candidates(rows), scope);
    CandidatesAreList(rows, scope);
    SurvivorsAreList(c);
    TopsAreUnique(Survivors(c, c), |Survivors(c, c)|);
    forall i | 0 <= i < |entries|
      ensures entries[i].row.scope == scope
    {
      assert RowsIn(entries)[i] in RowsIn(entries);
      TopsAreFrontier(c, entries[i].row);
      FilterMember(OfScope(scope), Candidates(rows), entries[i].row);
    }
  }

  // ----- every survivor is counted once, over all scopes

  function SurvivorsOf(rows: seq<GrowthRow>): seq<GrowthRow> {
    Survivors(Candidates(rows), Candidates(rows))
  }

  /** The rows of the given scopes, scope by scope. */
  function CountIn(rows: seq<GrowthRow>, scopes: seq<Scope>): nat {
    if scopes == [] then 0 else CountIn(rows, scopes[..|scopes| - 1]) + |InScope(rows, scopes[|scopes| - 1])|
  }

  lemma {:induction false} ScopeFiltersCommute(all: seq<GrowthRow>, rows: seq<GrowthRow>, scope: Scope)
    ensures Survivors(InScope(all, scope), InScope(rows, scope)) == InScope(Survivors(all, rows), scope)
    decreases |rows|
  {
    if rows != [] {
      var init, last := rows[..|rows| - 1], rows[|rows| - 1];
      ScopeFiltersCommute(all, init, scope);
      if last.scope == scope {
        DominatedInScope(all, last);
        var group := InScope(init, scope);
        assert (group + [last])[..|group|] == group;
      }
      if NotDominated(all)(last) {
        var kept := Survivors(all, init);
        assert (kept + [last])[..|kept|] == kept;
      }
    }
  }

  lemma DominatedInScope(all: seq<GrowthRow>, r: GrowthRow)
    ensures Dominated(InScope(all, r.scope), r) <==> Dominated(all, r)
  {
    if d :| d in all && Beats(d, r) {
      FilterMember(OfScope(r.scope), all, d);
    }
    if d :| d in InScope(all, r.scope) && Beats(d, r) {
      FilterMember(OfScope(r.scope), all, d);
    }
  }

  lemma {:induction false} CountOneMoreIn(rows: seq<GrowthRow>, r: GrowthRow, scopes: seq<Scope>)
    requires Distinct(scopes)
    ensures CountIn(rows + [r], scopes) == CountIn(rows, scopes) + if r.scope in scopes then 1 else 0
    decreases |scopes|
  {
    assert (rows + [r])[..|rows|] == rows;
    if scopes != [] {
      var init, last := scopes[..|scopes| - 1], scopes[|scopes| - 1];
      CountOneMoreIn(rows, r, init);
      assert scopes == init + [last];
    }
  }

  lemma {:induction false} NothingIn(scopes: seq<Scope>)
    ensures CountIn([], scopes) == 0
    decreases |scopes|
  {
    if scopes != [] {
      NothingIn(scopes[..|scopes| - 1]);
    }
  }

  lemma {:induction false} ScopesPartition(rows: seq<GrowthRow>, scopes: seq<Scope>)
    requires Distinct(scopes) && forall i :: 0 <= i < |rows| ==> rows[i].scope in scopes
    ensures CountIn(rows, scopes) == |rows|
    decreases |rows|
  {
    if rows == [] {
      NothingIn(scopes);
    } else {
      var init, last := rows[..|rows| - 1], rows[|rows| - 1];
      ScopesPartition(init, scopes);
      CountOneMoreIn(init, last, scopes);
      assert rows == init + [last];
    }
  }

  // ----- the order of the entries changes neither

  lemma {:induction false} TotalConcat(a: seq<FrontierRow>, b: seq<FrontierRow>)
    ensures TotalOf(a + b) == TotalOf(a) + TotalOf(b)
    decreases |b|
  {
    if b == [] {
      assert a + b == a;
    } else {
      var init, last := b[..|b| - 1], b[|b| - 1];
      TotalConcat(a, init);
      assert (a + b)[..|a + b| - 1] == a + init && (a + b)[|a + b| - 1] == last;
    }
  }

  lemma RowsConcat(a: seq<FrontierRow>, b: seq<FrontierRow>)
    ensures RowsIn(a + b) == RowsIn(a) + RowsIn(b)
  {
  }

  lemma {:induction false} EntriesPermuted(a: seq<FrontierRow>, b: seq<FrontierRow>)
    requires multiset(a) == multiset(b)
    ensures TotalOf(a) == TotalOf(b) && multiset(RowsIn(a)) == multiset(RowsIn(b))
    decreases |a|
  {
    if a == [] {
      assert |multiset(b)| == 0;
    } else {
      var init, last := a[..|a| - 1], a[|a| - 1];
      assert a == init + [last];
      assert last in multiset(b);
      var front, back := SplitAt(b, last);
      EntriesPermuted(init, front + back);
      TotalWithout(front, last, back);
      RowsWithout(front, last, back);
      RowsInLast(init, last);
    }
  }

  lemma TotalWithout(front: seq<FrontierRow>, f: FrontierRow, back: seq<FrontierRow>)
    ensures TotalOf(front + [f] + back) == TotalOf(front + back) + 1 + f.suppressedDescendants
  {
    TotalConcat(front + [f], back);
    TotalConcat(front, back);
    assert (front + [f])[..|front|] == front;
  }

  lemma RowsWithout(front: seq<FrontierRow>, f: FrontierRow, back: seq<FrontierRow>)
    ensures multiset(RowsIn(front + [f] + back)) == multiset(RowsIn(front + back)) + multiset{f.row}
  {
    RowsConcat(front + [f], back);
    RowsConcat(front, [f]);
    RowsConcat(front, back);
    assert RowsIn([f]) == [f.row];
  }

  // ----- the scopes one after the other

  /** What has been collected from the scopes: their frontiers, no row twice, all survivors counted. */
  ghost predicate CoversScopes(rows: seq<GrowthRow>, scopes: seq<Scope>, entries: seq<FrontierRow>) {
    ReportsScopes(rows, scopes, entries) && UniquePaths(RowsIn(entries)) &&
    (forall i :: 0 <= i < |entries| ==> entries[i].row.scope in scopes) &&
    TotalOf(entries) == CountIn(SurvivorsOf(rows), scopes)
  }

  lemma OneScopeMore(rows: seq<GrowthRow>, scopes: seq<Scope>, scope: Scope, entries: seq<FrontierRow>,
                     more: seq<FrontierRow>)
    requires UniquePaths(rows) && CoversScopes(rows, scopes, entries) && scope !in scopes
    requires
      var c := InScope(Candidates(rows), scope);
      RowsIn(more) == Tops(Survivors(c, c), |Survivors(c, c)|) && (forall f :: f in more ==> Reports(c, f)) &&
      TotalOf(more) == |Survivors(c, c)|
    ensures CoversScopes(rows, scopes + [scope], entries + more)
  {
    ScopeEntries(rows, scope, more);
    MoreScopes(rows, scopes, [scope], entries, more);
    EntriesAreUnique(rows, scope, more);
    RowsConcat(entries, more);
    AppendedIsUnique(RowsIn(entries), RowsIn(more));
    TotalConcat(entries, more);
    ScopeFiltersCommute(Candidates(rows), Candidates(rows), scope);
    assert (scopes + [scope])[..|scopes|] == scopes;
  }

  lemma NextScope(rows: seq<GrowthRow>, order: seq<Scope>, i: nat, entries: seq<FrontierRow>, more: seq<FrontierRow>)
    requires UniquePaths(rows) && Distinct(order) && i < |order| && CoversScopes(rows, order[..i], entries)
    requires
      var c := InScope(Candidates(rows), order[i]);
      RowsIn(more) == Tops(Survivors(c, c), |Survivors(c, c)|) && (forall f :: f in more ==> Reports(c, f)) &&
      TotalOf(more) == |Survivors(c, c)|
    ensures CoversScopes(rows, order[..i + 1], entries + more)
  {
    PrefixGrows(order, i);
    OneScopeMore(rows, order[..i], order[i], entries, more);
  }

  lemma PrefixGrows(order: seq<Scope>, i: nat)
    requires Distinct(order) && i < |order|
    ensures order[i] !in order[..i] && order[..i + 1] == order[..i] + [order[i]]
  {
  }

  lemma NoScope(rows: seq<GrowthRow>, order: seq<Scope>)
    ensures CoversScopes(rows, order[..0], [])
  {
  }

  method PruneScopes(ghost rows: seq<GrowthRow>, order: seq<Scope>, groups: map<Scope, seq<GrowthRow>>)
    returns (retained: seq<FrontierRow>)
    requires UniquePaths(rows) && Distinct(order)
    requires forall i :: 0 <= i < |order| ==>
               order[i] in groups && groups[order[i]] == InScope(Candidates(rows), order[i])
    ensures CoversScopes(rows, order, retained)
  {
    retained := [];
    NoScope(rows, order);
    for i := 0 to |order|
      invariant CoversScopes(rows, order[..i], retained)
    {
      CandidatesAreList(rows, order[i]);
      var entries := PruneScope(groups[order[i]]);
      NextScope(rows, order, i, retained, entries);
      retained := retained + entries;
    }
    assert order[..|order|] == order;
  }

  /** The rows of the result are exactly the frontier of the rows that grew, each once and with its
      counts; together with what they suppress they are all survivors. */
  ghost predicate IsFrontierOf(rows: seq<GrowthRow>, entries: seq<FrontierRow>) {
    (forall f :: f in entries ==> Reports(InScope(Candidates(rows), f.row.scope), f)) &&
    (forall r :: Reported(entries, r) <==> OnFrontier(Positive(rows), r)) &&
    UniquePaths(RowsIn(entries)) &&
    TotalOf(entries) == |SurvivorsOf(rows)|
  }

  lemma AllScopes(rows: seq<GrowthRow>, scopes: seq<Scope>, entries: seq<FrontierRow>, sorted: seq<FrontierRow>)
    requires CoversScopes(rows, scopes, entries) && Distinct(scopes) && multiset(entries) == multiset(sorted)
    requires forall r :: r in Candidates(rows) ==> r.scope in scopes
    ensures IsFrontierOf(rows, sorted)
  {
    AllFrontierRows(rows, scopes, entries, sorted);
    EntriesPermuted(entries, sorted);
    PermutationIsUnique(RowsIn(entries), RowsIn(sorted));
    var survivors := SurvivorsOf(rows);
    forall i | 0 <= i < |survivors|
      ensures survivors[i].scope in scopes
    {
      FilterMember(NotDominated(Candidates(rows)), Candidates(rows), survivors[i]);
    }
    ScopesPartition(survivors, scopes);
  }

  lemma AllFrontierRows(rows: seq<GrowthRow>, scopes: seq<Scope>, entries: seq<FrontierRow>, sorted: seq<FrontierRow>)
    requires ReportsScopes(rows, scopes, entries) && multiset(entries) == multiset(sorted)
    requires forall r :: r in Candidates(rows) ==> r.scope in scopes
    ensures forall f :: f in sorted ==> Reports(InScope(Candidates(rows), f.row.scope), f)
    ensures forall r :: Reported(sorted, r) <==> OnFrontier(Positive(rows), r)
  {
    forall f
      ensures f in sorted <==> f in entries
    {
      assert f in multiset(sorted) <==> f in multiset(entries);
    }
    forall r
      ensures Reported(sorted, r) <==> OnFrontier(Positive(rows), r)
    {
      if Reported(sorted, r) {
        ScopeDecides(rows, r);
      }
      if OnFrontier(Positive(rows), r) {
        SortMembers(CandidateLess, Positive(rows), r);
        assert Reported(entries, r);
      }
    }
  }

  /** The frontier of every scope, the most growth first. */
  method PruneGrowthFrontier(rows: seq<GrowthRow>) returns (result: seq<FrontierRow>)
    requires UniquePaths(rows)
    ensures IsFrontierOf(rows, result) && SortedBy(EntryLess, result)
  {
    var candidates := Candidates(rows);
    var order, groups := GroupByScope(candidates);
    var retained := PruneScopes(rows, order, groups);
    result := Sort(EntryLess, retained);
    EntryLessIsStrict();
    SortIsSorted(EntryLess, retained);
    AllScopes(rows, order, retained, result);
  }

  // ----- what the report means

  /** A row that was created or grew, and took disk bytes. */
  predicate IsGrowth(r: GrowthRow) {
    (r.classification == Created || r.classification == Grown) && r.diskDelta > 0
  }

  /** In the same comparison, on a path below. */
  predicate IsUnder(d: GrowthRow, a: GrowthRow) {
    d.scope == a.scope && IsAncestorPath(a.path, d.path)
  }

  /** Some row below took at least 95 percent of the growth of a. */
  predicate IsExplained(rows: seq<GrowthRow>, a: GrowthRow) {
    exists d {:trigger IsUnder(d, a)} ::
      d in rows && IsGrowth(d) && IsUnder(d, a) && d.diskDelta * 100 >= a.diskDelta * 95
  }

  lemma DominatedIsExplained(rows: seq<GrowthRow>, a: GrowthRow)
    requires a in rows && forall r :: r in rows ==> Canonical(r.path)
    ensures Dominated(Positive(rows), a) <==> IsExplained(rows, a)
  {
    forall d | d in rows
      ensures IsUnder(d, a) <==> Below(d, a)
    {
      WalkIsPrefixTest(d.path, a.path);
    }
    if d :| d in Positive(rows) && Beats(d, a) {
      FilterMember(IsPositive, rows, d);
      assert IsUnder(d, a);
    }
    if d :| d in rows && IsGrowth(d) && IsUnder(d, a) && d.diskDelta * 100 >= a.diskDelta * 95 {
      FilterMember(IsPositive, rows, d);
      assert Beats(d, a);
    }
  }

  /** The report shows a growth row exactly when no row below explains it, and rows below explain every
      growth row above it. */
  lemma ReportMeans(rows: seq<GrowthRow>, entries: seq<FrontierRow>, r: GrowthRow)
    requires IsFrontierOf(rows, entries) && forall x :: x in rows ==> Canonical(x.path)
    ensures Reported(entries, r) <==>
            r in rows && IsGrowth(r) && !IsExplained(rows, r) &&
            forall a :: a in rows && IsGrowth(a) && IsUnder(r, a) ==> IsExplained(rows, a)
  {
    FilterMember(IsPositive, rows, r);
    if r in rows {
      DominatedIsExplained(rows, r);
      forall a | a in rows
        ensures IsUnder(r, a) <==> Below(r, a)
        ensures a in Positive(rows) <==> IsGrowth(a)
        ensures Dominated(Positive(rows), a) <==> IsExplained(rows, a)
      {
        WalkIsPrefixTest(r.path, a.path);
        FilterMember(IsPositive, rows, a);
        DominatedIsExplained(rows, a);
      }
      forall a | a in Positive(rows)
        ensures a in rows
      {
        FilterMember(IsPositive, rows, a);
      }
    }
  }

  /** The most growth comes first; of equal growth the deepest, and then the first path. */
  lemma ReportIsOrdered(entries: seq<FrontierRow>, i: nat, j: nat)
    requires SortedBy(EntryLess, entries) && i < j < |entries|
    ensures
      var a, b := entries[i].row, entries[j].row;
      a.diskDelta > b.diskDelta ||
      (a.diskDelta == b.diskDelta && (a.depth > b.depth || (a.depth == b.depth && !BytesLess(b.path, a.path))))
  {
  }

  /** The candidates, which decide what a row is the first to beat, come with the most growth first, then the
      deepest, then by root, snapshots and path. */
  lemma CandidatesAreOrdered(rows: seq<GrowthRow>, i: nat, j: nat)
    requires i < j < |Candidates(rows)|
    ensures
      var a, b := Candidates(rows)[i], Candidates(rows)[j];
      a.diskDelta > b.diskDelta ||
      (a.diskDelta == b.diskDelta &&
       (a.depth > b.depth ||
        (a.depth == b.depth &&
         (a.scope != b.scope || !BytesLess(b.path, a.path)) &&
         !BytesLess(b.scope.rootPath, a.scope.rootPath) &&
         (a.scope.rootPath == b.scope.rootPath ==>
           a.scope.baseline < b.scope.baseline ||
           (a.scope.baseline == b.scope.baseline && a.scope.current <= b.scope.current)))))
  {
    CandidateLessIsStrict();
    SortIsSorted(CandidateLess, Positive(rows));
    assert !CandidateLess(Candidates(rows)[j], Candidates(rows)[i]);
  }
}
