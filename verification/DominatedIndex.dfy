/** The first phase of the frontier: which candidates are dominated, and by which row first. */
module DominatedIndex {
  import opened Models
  import opened Paths
  import opened Dominance

  predicate OneScope(rows: seq<GrowthRow>) {
    forall i :: 0 <= i < |rows| ==> rows[i].scope == rows[0].scope
  }

  /** The index of the first of n rows that beats a, or -1. */
  function FirstBeating(rows: seq<GrowthRow>, a: GrowthRow, n: nat): (first: int)
    requires n <= |rows|
    ensures -1 <= first < n
    ensures first >= 0 ==> Beats(rows[first], a)
    ensures forall i :: 0 <= i < (if first < 0 then n else first) ==> !Beats(rows[i], a)
  {
    if n == 0 then -1
    else
      var before := FirstBeating(rows, a, n - 1);
      if before >= 0 then before else if Beats(rows[n - 1], a) then n - 1 else -1
  }

  lemma FirstBeatingDecides(rows: seq<GrowthRow>, a: GrowthRow)
    ensures FirstBeating(rows, a, |rows|) >= 0 <==> Dominated(rows, a)
  {
  }

  /** The rows by path, and the first row that beats each of them so far. */
  ghost predicate Indexes(rows: seq<GrowthRow>, byPath: map<Bytes, GrowthRow>) {
    (forall r :: r in rows ==> r.path in byPath && byPath[r.path] == r) &&
    (forall p :: p in byPath ==> byPath[p] in rows && byPath[p].path == p)
  }

  ghost predicate Credits(rows: seq<GrowthRow>, best: map<Bytes, GrowthRow>, n: nat)
    requires n <= |rows|
  {
    (forall p :: p in best ==> exists a :: a in rows && a.path == p) &&
    (forall a :: a in rows ==> CreditedTo(rows, best, a, FirstBeating(rows, a, n)))
  }

  predicate CreditedTo(rows: seq<GrowthRow>, best: map<Bytes, GrowthRow>, a: GrowthRow, first: int)
    requires -1 <= first < |rows|
  {
    if first < 0 then a.path !in best else a.path in best && best[a.path] == rows[first]
  }

  /** One step up the walk from d. */
  function Credit(best: map<Bytes, GrowthRow>, byPath: map<Bytes, GrowthRow>, d: GrowthRow, p: Bytes):
    map<Bytes, GrowthRow>
  {
    if p in byPath && Explains(d, byPath[p]) && p !in best then best[p := d] else best
  }

  function CreditAll(best: map<Bytes, GrowthRow>, byPath: map<Bytes, GrowthRow>, d: GrowthRow, walk: seq<Bytes>):
    map<Bytes, GrowthRow>
    decreases |walk|
  {
    if walk == [] then best else CreditAll(Credit(best, byPath, d, walk[0]), byPath, d, walk[1..])
  }

  lemma {:induction false} CreditAllIs(best: map<Bytes, GrowthRow>, byPath: map<Bytes, GrowthRow>, d: GrowthRow,
                                       walk: seq<Bytes>, p: Bytes)
    ensures
      var after := CreditAll(best, byPath, d, walk);
      (p in after <==> p in best || (p in walk && p in byPath && Explains(d, byPath[p]))) &&
      (p in after ==> after[p] == if p in best then best[p] else d)
    decreases |walk|
  {
    if walk != [] {
      CreditAllIs(Credit(best, byPath, d, walk[0]), byPath, d, walk[1..], p);
    }
  }

  lemma CreditRow(rows: seq<GrowthRow>, byPath: map<Bytes, GrowthRow>, best: map<Bytes, GrowthRow>, n: nat,
                  a: GrowthRow)
    requires n < |rows| && OneScope(rows) && Indexes(rows, byPath) && a in rows
    requires CreditedTo(rows, best, a, FirstBeating(rows, a, n))
    ensures CreditedTo(rows, CreditAll(best, byPath, rows[n], Ancestors(rows[n].path)), a, FirstBeating(rows, a, n + 1))
  {
    CreditAllIs(best, byPath, rows[n], Ancestors(rows[n].path), a.path);
    var i :| 0 <= i < |rows| && rows[i] == a;
    assert rows[i].scope == rows[n].scope;
  }

  lemma CreditsNext(rows: seq<GrowthRow>, byPath: map<Bytes, GrowthRow>, best: map<Bytes, GrowthRow>, n: nat)
    requires n < |rows| && OneScope(rows) && Indexes(rows, byPath) && Credits(rows, best, n)
    ensures Credits(rows, CreditAll(best, byPath, rows[n], Ancestors(rows[n].path)), n + 1)
  {
    var after := CreditAll(best, byPath, rows[n], Ancestors(rows[n].path));
    forall p | p in after
      ensures exists a :: a in rows && a.path == p
    {
      CreditAllIs(best, byPath, rows[n], Ancestors(rows[n].path), p);
      if p !in best {
        assert byPath[p] in rows;
      }
    }
    forall a | a in rows
      ensures CreditedTo(rows, after, a, FirstBeating(rows, a, n + 1))
    {
      CreditRow(rows, byPath, best, n, a);
    }
  }

  /** candidate_by_path */
  method IndexByPath(rows: seq<GrowthRow>) returns (byPath: map<Bytes, GrowthRow>)
    requires OneScope(rows) && UniquePaths(rows)
    ensures Indexes(rows, byPath)
  {
    byPath := map[];
    for i := 0 to |rows|
      invariant forall k :: 0 <= k < i ==> rows[k].path in byPath && byPath[rows[k].path] == rows[k]
      invariant forall p :: p in byPath ==> byPath[p] in rows && byPath[p].path == p
    {
      forall k | 0 <= k < i
        ensures rows[k].path != rows[i].path
      {
        assert Differ(rows, k, i) && rows[k].scope == rows[i].scope;
      }
      byPath := byPath[rows[i].path := rows[i]];
    }
  }

  /** How many rows of the candidates a row is the first to beat. */
  function BeatenFirstBy(best: map<Bytes, GrowthRow>, path: Bytes): nat {
    |BeatenPaths(best, path)|
  }

  function BeatenPaths(best: map<Bytes, GrowthRow>, path: Bytes): set<Bytes> {
    set p | p in best && best[p].path == path
  }

  /** The walk up from one row, which credits it with whatever it explains first. */
  method CreditAncestors(before: map<Bytes, GrowthRow>, byPath: map<Bytes, GrowthRow>, d: GrowthRow)
    returns (best: map<Bytes, GrowthRow>)
    ensures best == CreditAll(before, byPath, d, Ancestors(d.path))
  {
    best := before;
    var ancestor := ParentOf(d.path);
    while ancestor.Some?
      invariant CreditAll(best, byPath, d, WalkFrom(ancestor)) == CreditAll(before, byPath, d, Ancestors(d.path))
      decreases if ancestor.Some? then 1 + |ancestor.value| else 0
    {
      best := Credit(best, byPath, d, ancestor.value);
      ancestor := ParentOf(ancestor.value);
    }
  }

  lemma CreditsDecide(rows: seq<GrowthRow>, best: map<Bytes, GrowthRow>)
    requires Credits(rows, best, |rows|)
    ensures forall a :: a in rows ==> (a.path in best.Keys <==> Dominated(rows, a))
  {
    forall a | a in rows
      ensures a.path in best.Keys <==> Dominated(rows, a)
    {
      FirstBeatingDecides(rows, a);
    }
  }

  lemma NoCredits(rows: seq<GrowthRow>)
    ensures Credits(rows, map[], 0)
  {
  }

  /** The paths that are dominated, and for each row the number of rows that it is the first to beat. */
  method DominatedAncestorIndex(candidates: seq<GrowthRow>)
    returns (dominated: set<Bytes>, counts: map<Bytes, nat>, ghost best: map<Bytes, GrowthRow>)
    requires OneScope(candidates) && UniquePaths(candidates)
    ensures Credits(candidates, best, |candidates|) && dominated == best.Keys
    ensures forall a :: a in candidates ==> (a.path in dominated <==> Dominated(candidates, a))
    ensures forall path :: Get(counts, path) == BeatenFirstBy(best, path)
  {
    var byPath := IndexByPath(candidates);
    var bestByAncestor: map<Bytes, GrowthRow> := map[];
    NoCredits(candidates);
    for i := 0 to |candidates|
      invariant Credits(candidates, bestByAncestor, i)
    {
      CreditsNext(candidates, byPath, bestByAncestor, i);
      bestByAncestor := CreditAncestors(bestByAncestor, byPath, candidates[i]);
    }
    best := bestByAncestor;
    CreditsDecide(candidates, best);
    dominated := bestByAncestor.Keys;
    counts := CountFirst(bestByAncestor);
  }

  function WalkFrom(ancestor: Option<Bytes>): seq<Bytes> {
    match ancestor
    case None => []
    case Some(p) => [p] + Ancestors(p)
  }

  function Get(counts: map<Bytes, nat>, path: Bytes): nat {
    if path in counts then counts[path] else 0
  }

  /** The count over the paths that are no longer left to visit. */
  function CountedSoFar(best: map<Bytes, GrowthRow>, left: set<Bytes>, path: Bytes): nat {
    |BeatenPaths(best, path) - left|
  }

  lemma CountNext(best: map<Bytes, GrowthRow>, left: set<Bytes>, p: Bytes, path: Bytes)
    requires p in left && p in best
    ensures CountedSoFar(best, left - {p}, path)
            == CountedSoFar(best, left, path) + if path == best[p].path then 1 else 0
  {
    var counted := BeatenPaths(best, path) - left;
    assert BeatenPaths(best, path) - (left - {p}) == if path == best[p].path then counted + {p} else counted;
  }

  lemma CountDone(best: map<Bytes, GrowthRow>, path: Bytes)
    ensures CountedSoFar(best, {}, path) == BeatenFirstBy(best, path)
    ensures CountedSoFar(best, best.Keys, path) == 0
  {
  }

  method CountFirst(best: map<Bytes, GrowthRow>) returns (counts: map<Bytes, nat>)
    ensures forall path :: Get(counts, path) == BeatenFirstBy(best, path)
  {
    counts := map[];
    var left := best.Keys;
    forall path
      ensures CountedSoFar(best, left, path) == 0 && CountedSoFar(best, {}, path) == BeatenFirstBy(best, path)
    {
      CountDone(best, path);
    }
    while left != {}
      invariant left <= best.Keys
      invariant forall path :: Get(counts, path) == CountedSoFar(best, left, path)
    {
      var p :| p in left;
      forall path
        ensures CountedSoFar(best, left - {p}, path)
                == CountedSoFar(best, left, path) + if path == best[p].path then 1 else 0
      {
        CountNext(best, left, p, path);
      }
      counts := counts[best[p].path := Get(counts, best[p].path) + 1];
      left := left - {p};
    }
  }
}
