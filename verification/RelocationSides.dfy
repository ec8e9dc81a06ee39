/** When a row can be both the growth of one pair and the shrink of another, or of the same. */
module RelocationSides {
  import opened Models
  import opened Paths
  import opened Ordering
  import opened Dominance
  import opened FrontierScopes
  import opened FastFilter
  import opened Relocation

  /** What the pairing computes, as its contract says. */
  ghost predicate Pairs(growths: seq<GrowthRow>, shrinks: seq<GrowthRow>, suspicions: seq<Suspicion>) {
    Serves(GrowthCandidates(growths), ShrinkCandidates(shrinks), suspicions)
  }

  // ----- the contract determines the pairs

  lemma BestIsUnique(p: GrowthRow, negatives: seq<GrowthRow>, used: set<ScopePath>, s: Suspicion, t: Suspicion)
    requires IsBest(p, negatives, used, s) && IsBest(p, negatives, used, t)
    ensures s == t
  {
    var j :| IsFirstClosest(p, negatives, used, j, |negatives|) && negatives[j] == s.negative;
    var k :| IsFirstClosest(p, negatives, used, k, |negatives|) && negatives[k] == t.negative;
    assert IsOpenTo(p, negatives, used, j) && IsOpenTo(p, negatives, used, k);
  }

  lemma BestIsOpen(p: GrowthRow, negatives: seq<GrowthRow>, used: set<ScopePath>, s: Suspicion)
    requires IsBest(p, negatives, used, s)
    ensures exists k :: IsOpenTo(p, negatives, used, k)
  {
  }

  /** There is one pairing. */
  lemma {:induction false} ServesIsUnique(positives: seq<GrowthRow>, negatives: seq<GrowthRow>, s: seq<Suspicion>,
                                          t: seq<Suspicion>)
    requires Serves(positives, negatives, s) && Serves(positives, negatives, t)
    ensures s == t
    decreases |positives|
  {
    if positives != [] {
      var init, p := positives[..|positives| - 1], positives[|positives| - 1];
      if ServesLast(init, p, negatives, s) && ServesLast(init, p, negatives, t) {
        var n, m := |s| - 1, |t| - 1;
        ServesIsUnique(init, negatives, s[..n], t[..m]);
        BestIsUnique(p, negatives, UsedKeys(s[..n]), s[n], t[m]);
        assert s == s[..n] + [s[n]] && t == t[..m] + [t[m]];
      } else if ServesLast(init, p, negatives, s) {
        BestIsOpen(p, negatives, UsedKeys(s[..|s| - 1]), s[|s| - 1]);
        ServesIsUnique(init, negatives, s[..|s| - 1], t);
      } else if ServesLast(init, p, negatives, t) {
        BestIsOpen(p, negatives, UsedKeys(t[..|t| - 1]), t[|t| - 1]);
        ServesIsUnique(init, negatives, s, t[..|t| - 1]);
      } else {
        ServesIsUnique(init, negatives, s, t);
      }
    }
  }

  lemma ClosestGoesOn(p: GrowthRow, negatives: seq<GrowthRow>, used: set<ScopePath>, before: int, n: nat)
    requires n < |negatives| && IsFirstClosest(p, negatives, used, before, n)
    ensures if IsOpenTo(p, negatives, used, n) && SizeGap(p, negatives[n]) < SizeGap(p, negatives[before])
            then IsFirstClosest(p, negatives, used, n, n + 1)
            else IsFirstClosest(p, negatives, used, before, n + 1)
  {
  }

  lemma ClosestStarts(p: GrowthRow, negatives: seq<GrowthRow>, used: set<ScopePath>, n: nat)
    requires IsOpenTo(p, negatives, used, n) && forall i :: 0 <= i < n ==> !IsOpenTo(p, negatives, used, i)
    ensures IsFirstClosest(p, negatives, used, n, n + 1)
  {
  }

  lemma {:induction false} FirstClosestExists(p: GrowthRow, negatives: seq<GrowthRow>, used: set<ScopePath>, n: nat)
    returns (k: int)
    requires n <= |negatives|
    ensures if k < 0 then forall j :: 0 <= j < n ==> !IsOpenTo(p, negatives, used, j)
            else IsFirstClosest(p, negatives, used, k, n)
    decreases n
  {
    k := -1;
    if n > 0 {
      var before := FirstClosestExists(p, negatives, used, n - 1);
      var opens := IsOpenTo(p, negatives, used, n - 1);
      if before >= 0 {
        ClosestGoesOn(p, negatives, used, before, n - 1);
        k := if opens && SizeGap(p, negatives[n - 1]) < SizeGap(p, negatives[before]) then n - 1 else before;
      } else if opens {
        ClosestStarts(p, negatives, used, n - 1);
        k := n - 1;
      }
    }
  }

  /** There is a pairing. */
  lemma {:induction false} ServesExists(positives: seq<GrowthRow>, negatives: seq<GrowthRow>)
    returns (s: seq<Suspicion>)
    requires forall i :: 0 <= i < |positives| ==> IsLargeGrowth(positives[i])
    requires forall i :: 0 <= i < |negatives| ==> IsLargeShrink(negatives[i])
    ensures Serves(positives, negatives, s)
    decreases |positives|
  {
    if positives == [] {
      s := [];
    } else {
      var init, p := positives[..|positives| - 1], positives[|positives| - 1];
      s := ServesExists(init, negatives);
      var k := FirstClosestExists(p, negatives, UsedKeys(s), |negatives|);
      if k >= 0 {
        assert IsOpenTo(p, negatives, UsedKeys(s), k);
        var last := Suspicion(p, negatives[k], SizeGap(p, negatives[k]), ParentOf(p.path).value);
        assert IsBest(p, negatives, UsedKeys(s), last);
        assert (s + [last])[..|s|] == s;
        assert ServesLast(init, p, negatives, s + [last]);
        s := s + [last];
      }
    }
  }

  // ----- what a list of shrinks promises for every list of growths

  /** Shared keys carry the same row, as in two lists that come from one comparison. */
  predicate Agree(growths: seq<GrowthRow>, shrinks: seq<GrowthRow>) {
    forall p, n :: p in growths && n in shrinks && KeyOf(p) == KeyOf(n) ==> p == n
  }

  /** No large row that can be paired grew. */
  predicate OnlyShrinks(shrinks: seq<GrowthRow>) {
    forall n :: n in shrinks && IsLargeShrink(n) && ParentOf(n.path).Some? ==> n.diskDelta < 0
  }

  /** No row occurs twice over both sides of all pairs, so every pair names two directories. */
  predicate UsesRowsOnce(suspicions: seq<Suspicion>) {
    (forall j, k :: 0 <= j < |suspicions| && 0 <= k < |suspicions| ==>
      KeyOf(suspicions[j].positive) != KeyOf(suspicions[k].negative)) &&
    (forall j, k :: 0 <= j < k < |suspicions| ==>
      KeyOf(suspicions[j].negative) != KeyOf(suspicions[k].negative) &&
      KeyOf(suspicions[j].positive) != KeyOf(suspicions[k].positive))
  }

  /** Every pair names a row that shrank. */
  predicate NamesShrinks(suspicions: seq<Suspicion>) {
    forall k :: 0 <= k < |suspicions| ==> suspicions[k].negative.diskDelta < 0
  }

  lemma PrefixIsUnique(rows: seq<GrowthRow>, n: nat)
    requires UniquePaths(rows) && n <= |rows|
    ensures UniquePaths(rows[..n])
  {
    forall i, j | 0 <= i < j < n
      ensures Differ(rows[..n], i, j)
    {
      assert Differ(rows, i, j);
    }
  }

  /** The order of service alone makes the pairs a maximal matching. */
  lemma {:induction false} ServedIsPaired(positives: seq<GrowthRow>, negatives: seq<GrowthRow>, s: seq<Suspicion>)
    requires UniquePaths(positives) && Serves(positives, negatives, s)
    ensures Paired(positives, negatives, s)
    decreases |positives|
  {
    if positives != [] {
      var last := |positives| - 1;
      var init, p := positives[..last], positives[last];
      PrefixIsUnique(positives, last);
      NewToPrefix(positives, last);
      assert positives == init + [p];
      if ServesLast(init, p, negatives, s) {
        ServedIsPaired(init, negatives, s[..|s| - 1]);
        PairNext(init, negatives, s[..|s| - 1], s[|s| - 1]);
        assert s == s[..|s| - 1] + [s[|s| - 1]];
      } else {
        ServedIsPaired(init, negatives, s);
        PairNone(init, negatives, s, p);
      }
    }
  }

  lemma CandidateRows(growths: seq<GrowthRow>, shrinks: seq<GrowthRow>)
    ensures forall r :: r in GrowthCandidates(growths) <==> r in growths && IsLargeGrowth(r)
    ensures forall r :: r in ShrinkCandidates(shrinks) <==> r in shrinks && IsLargeShrink(r)
  {
    forall r
      ensures r in GrowthCandidates(growths) <==> r in growths && IsLargeGrowth(r)
      ensures r in ShrinkCandidates(shrinks) <==> r in shrinks && IsLargeShrink(r)
    {
      SortMembers(GrowthLess, Filter(IsLargeGrowth, growths), r);
      FilterMember(IsLargeGrowth, growths, r);
      SortMembers(ShrinkLess, Filter(IsLargeShrink, shrinks), r);
      FilterMember(IsLargeShrink, shrinks, r);
    }
  }

  lemma PairsAreMatching(growths: seq<GrowthRow>, shrinks: seq<GrowthRow>, s: seq<Suspicion>)
    requires UniquePaths(growths) && Pairs(growths, shrinks, s)
    ensures Paired(GrowthCandidates(growths), ShrinkCandidates(shrinks), s)
    ensures forall k :: 0 <= k < |s| ==> IsPair(s[k]) && s[k].positive in growths && s[k].negative in shrinks
  {
    CandidateRows(growths, shrinks);
    FilterIsUnique(IsLargeGrowth, growths);
    PermutationIsUnique(Filter(IsLargeGrowth, growths), GrowthCandidates(growths));
    ServedIsPaired(GrowthCandidates(growths), ShrinkCandidates(shrinks), s);
    forall k | 0 <= k < |s|
      ensures IsPair(s[k]) && s[k].positive in growths && s[k].negative in shrinks
    {
      assert s[k] in s;
    }
  }

  /** When the large rows among the shrinks shrank, all pairs are sound. */
  lemma OnlyShrinksIsSound(growths: seq<GrowthRow>, shrinks: seq<GrowthRow>, s: seq<Suspicion>)
    requires UniquePaths(growths) && Agree(growths, shrinks) && Pairs(growths, shrinks, s) && OnlyShrinks(shrinks)
    ensures UsesRowsOnce(s) && NamesShrinks(s)
  {
    PairsAreMatching(growths, shrinks, s);
    forall k | 0 <= k < |s|
      ensures s[k].negative.diskDelta < 0 && s[k].positive.diskDelta > 0
    {
      assert IsPair(s[k]);
    }
  }

  // ----- a large row that grew breaks the pairs of some list of growths

  /** A row of the scope, parent and size of x: nothing is closer to x. */
  predicate Like(r: GrowthRow, x: GrowthRow) {
    r.scope == x.scope && ParentOf(r.path) == ParentOf(x.path) && Abs(r.diskDelta) == x.diskDelta
  }

  function LikeKeys(rows: seq<GrowthRow>, x: GrowthRow): set<ScopePath> {
    set n | n in rows && Like(n, x) :: KeyOf(n)
  }

  predicate AllGrowLike(rows: seq<GrowthRow>, x: GrowthRow) {
    forall i :: 0 <= i < |rows| ==> Like(rows[i], x) && rows[i].diskDelta == x.diskDelta
  }

  predicate CanPair(x: GrowthRow) {
    IsLargeGrowth(x) && ParentOf(x.path).Some?
  }

  lemma LikeIsClosest(p: GrowthRow, n: GrowthRow, x: GrowthRow)
    requires CanPair(x) && Like(p, x) && p.diskDelta == x.diskDelta
    ensures Like(n, x) <==> Compatible(p, n) && SizeGap(p, n) == 0
  {
  }

  /** A row like x takes a row like x while there is one. */
  lemma TakesLike(p: GrowthRow, negatives: seq<GrowthRow>, used: set<ScopePath>, x: GrowthRow, key: ScopePath)
    requires CanPair(x) && Like(p, x) && p.diskDelta == x.diskDelta
    requires key in LikeKeys(negatives, x) && key !in used
    ensures exists k :: IsOpenTo(p, negatives, used, k)
    ensures forall s :: IsBest(p, negatives, used, s) ==> KeyOf(s.negative) in LikeKeys(negatives, x) - used
  {
    var n :| n in negatives && Like(n, x) && KeyOf(n) == key;
    LikeIsClosest(p, n, x);
    var j :| 0 <= j < |negatives| && negatives[j] == n;
    assert IsOpenTo(p, negatives, used, j);
    forall s | IsBest(p, negatives, used, s)
      ensures KeyOf(s.negative) in LikeKeys(negatives, x) - used
    {
      BestIsClosest(p, negatives, used, s, n);
      LikeIsClosest(p, s.negative, x);
    }
  }

  /** Every growth row took a row like x. */
  predicate AllTake(positives: seq<GrowthRow>, negatives: seq<GrowthRow>, s: seq<Suspicion>, x: GrowthRow) {
    |s| == |positives| && (forall k :: 0 <= k < |s| ==> s[k].positive == positives[k]) &&
    UsedKeys(s) <= LikeKeys(negatives, x) && |UsedKeys(s)| == |positives|
  }

  lemma OneMoreTakes(init: seq<GrowthRow>, p: GrowthRow, negatives: seq<GrowthRow>, before: seq<Suspicion>,
                     last: Suspicion, x: GrowthRow)
    requires AllTake(init, negatives, before, x) && last.positive == p
    requires KeyOf(last.negative) in LikeKeys(negatives, x) - UsedKeys(before)
    ensures AllTake(init + [p], negatives, before + [last], x)
  {
    UsedGrows(before, last);
  }

  lemma {:induction false} EachTakesLike(positives: seq<GrowthRow>, negatives: seq<GrowthRow>, s: seq<Suspicion>,
                                         x: GrowthRow)
    requires CanPair(x) && AllGrowLike(positives, x) && |positives| <= |LikeKeys(negatives, x)|
    requires Serves(positives, negatives, s)
    ensures AllTake(positives, negatives, s, x)
    decreases |positives|
  {
    if positives == [] {
      assert UsedKeys(s) == {};
    } else {
      var init, p := positives[..|positives| - 1], positives[|positives| - 1];
      assert positives == init + [p];
      if ServesLast(init, p, negatives, s) {
        var before, last := s[..|s| - 1], s[|s| - 1];
        assert s == before + [last];
        EachTakesLike(init, negatives, before, x);
        var key := Unused(LikeKeys(negatives, x), UsedKeys(before));
        TakesLike(p, negatives, UsedKeys(before), x, key);
        OneMoreTakes(init, p, negatives, before, last, x);
      } else {
        EachTakesLike(init, negatives, s, x);
        var key := Unused(LikeKeys(negatives, x), UsedKeys(s));
        TakesLike(p, negatives, UsedKeys(s), x, key);
      }
    }
  }

  lemma Unused(all: set<ScopePath>, used: set<ScopePath>) returns (key: ScopePath)
    requires used <= all && |used| < |all|
    ensures key in all && key !in used
  {
    assert all == used + (all - used);
    key :| key in all - used;
  }

  // ----- as many growths like x as there are shrinks like it, all but x under new names

  const LETTER: Byte := 0x61

  function Letters(n: nat): Bytes {
    seq(n, i requires 0 <= i < n => LETTER)
  }

  function Longer(path: Bytes, n: nat): Bytes {
    StripRight(path) + Letters(n)
  }

  lemma LongerParent(path: Bytes, n: nat)
    requires ParentOf(path).Some? && n > 0
    ensures ParentOf(Longer(path, n)) == ParentOf(path)
  {
    var stripped, longer := StripRight(path), Longer(path, n);
    var i := LastSlash(stripped);
    assert longer[|longer| - 1] == LETTER;
    assert StripRight(longer) == longer;
    LastSlashIs(longer, i);
    assert longer[..i] == stripped[..i];
  }

  function Renamed(x: GrowthRow, n: nat): GrowthRow {
    x.(path := Longer(x.path, n))
  }

  function Others(x: GrowthRow, from: nat, n: nat): (others: seq<GrowthRow>)
    ensures |others| == n && forall i :: 0 <= i < n ==> others[i] == Renamed(x, from + i)
  {
    seq(n, i requires 0 <= i < n => Renamed(x, from + i))
  }

  lemma OthersDiffer(x: GrowthRow, from: nat, n: nat)
    requires |x.path| < from && CanPair(x)
    ensures UniquePaths(Others(x, from, n) + [x]) && AllGrowLike(Others(x, from, n) + [x], x)
    ensures forall i :: 0 <= i < n ==> |Others(x, from, n)[i].path| >= from
  {
    var growths := Others(x, from, n) + [x];
    forall i | 0 <= i < n
      ensures |growths[i].path| == |StripRight(x.path)| + from + i && Like(growths[i], x)
    {
      LongerParent(x.path, from + i);
    }
    forall i, j | 0 <= i < j < |growths|
      ensures Differ(growths, i, j)
    {
    }
  }

  /** x and n more rows like it, under names that the shrinks do not have. */
  lemma GrowthsLike(shrinks: seq<GrowthRow>, x: GrowthRow, n: nat) returns (growths: seq<GrowthRow>)
    requires UniquePaths(shrinks) && x in shrinks && CanPair(x)
    ensures |growths| == n + 1 && x in growths
    ensures UniquePaths(growths) && AllGrowLike(growths, x) && Agree(growths, shrinks)
  {
    var others := Others(x, LongestPath(shrinks) + 1, n);
    OthersDiffer(x, LongestPath(shrinks) + 1, n);
    growths := others + [x];
    forall p, m | p in growths && m in shrinks && KeyOf(p) == KeyOf(m)
      ensures p == m
    {
      if p == x {
        SamePathSameRow(shrinks, x, m);
      }
    }
  }

  lemma CandidatesAreAll(growths: seq<GrowthRow>, x: GrowthRow)
    requires CanPair(x) && AllGrowLike(growths, x)
    ensures |GrowthCandidates(growths)| == |growths| && AllGrowLike(GrowthCandidates(growths), x)
    ensures forall r :: r in growths ==> r in GrowthCandidates(growths)
  {
    var sorted := GrowthCandidates(growths);
    FilterAll(IsLargeGrowth, growths);
    assert |multiset(sorted)| == |multiset(growths)|;
    forall i | 0 <= i < |sorted|
      ensures sorted[i] in growths
    {
      SortMembers(GrowthLess, growths, sorted[i]);
    }
    forall r | r in growths
      ensures r in sorted
    {
      SortMembers(GrowthLess, growths, r);
    }
  }

  /** Both sides of x are taken when there are as many growths like x as shrinks. */
  lemma BothSidesAreTaken(growths: seq<GrowthRow>, shrinks: seq<GrowthRow>, s: seq<Suspicion>, x: GrowthRow)
    requires UniquePaths(growths) && UniquePaths(shrinks) && Pairs(growths, shrinks, s)
    requires x in growths && x in shrinks && CanPair(x) && AllGrowLike(growths, x)
    requires |growths| == |LikeKeys(ShrinkCandidates(shrinks), x)|
    ensures exists j :: 0 <= j < |s| && s[j].positive == x
    ensures exists k :: 0 <= k < |s| && s[k].negative == x
  {
    var positives, negatives := GrowthCandidates(growths), ShrinkCandidates(shrinks);
    CandidatesAreAll(growths, x);
    EachTakesLike(positives, negatives, s, x);
    var j :| 0 <= j < |positives| && positives[j] == x;
    assert s[j].positive == x;
    CandidateRows([], shrinks);
    assert KeyOf(x) in LikeKeys(negatives, x);
    AllAreUsed(UsedKeys(s), LikeKeys(negatives, x));
    IsTaken(growths, shrinks, s, x);
  }

  lemma PairsExist(growths: seq<GrowthRow>, shrinks: seq<GrowthRow>) returns (s: seq<Suspicion>)
    ensures Pairs(growths, shrinks, s)
  {
    CandidateRows(growths, shrinks);
    var positives, negatives := GrowthCandidates(growths), ShrinkCandidates(shrinks);
    assert forall i :: 0 <= i < |positives| ==> positives[i] in positives;
    assert forall i :: 0 <= i < |negatives| ==> negatives[i] in negatives;
    s := ServesExists(positives, negatives);
  }

  lemma LikeItself(shrinks: seq<GrowthRow>, x: GrowthRow)
    requires x in shrinks && CanPair(x)
    ensures |LikeKeys(ShrinkCandidates(shrinks), x)| > 0
  {
    CandidateRows([], shrinks);
    assert KeyOf(x) in LikeKeys(ShrinkCandidates(shrinks), x);
  }

  /** A large row that grew, among the shrinks, is the shrink of one pair and the growth of one for some
      list of growths. */
  lemma GrowerIsTakenTwice(shrinks: seq<GrowthRow>, x: GrowthRow) returns (growths: seq<GrowthRow>, s: seq<Suspicion>)
    requires UniquePaths(shrinks) && x in shrinks && CanPair(x)
    ensures UniquePaths(growths) && Agree(growths, shrinks) && Pairs(growths, shrinks, s)
    ensures exists j :: 0 <= j < |s| && s[j].positive == x
    ensures exists k :: 0 <= k < |s| && s[k].negative == x
  {
    LikeItself(shrinks, x);
    var n := |LikeKeys(ShrinkCandidates(shrinks), x)| - 1;
    growths := GrowthsLike(shrinks, x, n);
    s := PairsExist(growths, shrinks);
    BothSidesAreTaken(growths, shrinks, s, x);
  }

  lemma AllAreUsed(used: set<ScopePath>, all: set<ScopePath>)
    requires used <= all && |used| == |all|
    ensures used == all
  {
    assert all == used + (all - used);
  }

  lemma IsTaken(growths: seq<GrowthRow>, shrinks: seq<GrowthRow>, s: seq<Suspicion>, x: GrowthRow)
    requires UniquePaths(growths) && UniquePaths(shrinks) && Pairs(growths, shrinks, s)
    requires x in shrinks && KeyOf(x) in UsedKeys(s)
    ensures exists k :: 0 <= k < |s| && s[k].negative == x
  {
    PairsAreMatching(growths, shrinks, s);
    var u :| u in s && KeyOf(u.negative) == KeyOf(x);
    var k :| 0 <= k < |s| && s[k] == u;
    SamePathSameRow(shrinks, u.negative, x);
  }

  ghost predicate AlwaysOnce(shrinks: seq<GrowthRow>) {
    forall growths, s {:trigger Pairs(growths, shrinks, s)} ::
      UniquePaths(growths) && Agree(growths, shrinks) && Pairs(growths, shrinks, s) ==> UsesRowsOnce(s)
  }

  ghost predicate AlwaysShrinks(shrinks: seq<GrowthRow>) {
    forall growths, s {:trigger Pairs(growths, shrinks, s)} ::
      UniquePaths(growths) && Agree(growths, shrinks) && Pairs(growths, shrinks, s) ==> NamesShrinks(s)
  }

  /** A list of shrinks never uses a row twice, whatever growths it meets, exactly when its large rows
      shrank; and exactly then every pair names a row that shrank. */
  lemma RowsAreUsedOnceIff(shrinks: seq<GrowthRow>)
    requires UniquePaths(shrinks)
    ensures AlwaysOnce(shrinks) <==> OnlyShrinks(shrinks)
    ensures AlwaysShrinks(shrinks) <==> OnlyShrinks(shrinks)
  {
    if OnlyShrinks(shrinks) {
      forall growths, s | UniquePaths(growths) && Agree(growths, shrinks) && Pairs(growths, shrinks, s)
        ensures UsesRowsOnce(s) && NamesShrinks(s)
      {
        OnlyShrinksIsSound(growths, shrinks, s);
      }
    } else {
      var x :| x in shrinks && IsLargeShrink(x) && ParentOf(x.path).Some? && x.diskDelta >= 0;
      var growths, s := GrowerIsTakenTwice(shrinks, x);
      var j :| 0 <= j < |s| && s[j].positive == x;
      var k :| 0 <= k < |s| && s[k].negative == x;
      assert KeyOf(s[j].positive) == KeyOf(s[k].negative);
    }
  }

  // ----- a row in both lists

  lemma SortsToItself(x: GrowthRow)
    requires IsLargeGrowth(x)
    ensures GrowthCandidates([x]) == [x] && ShrinkCandidates([x]) == [x]
  {
    SortSingle(GrowthLess, IsLargeGrowth, x);
    SortSingle(ShrinkLess, IsLargeShrink, x);
  }

  function SelfPair(x: GrowthRow): Suspicion
    requires CanPair(x)
  {
    Suspicion(x, x, 0, ParentOf(x.path).value)
  }

  lemma SelfIsBest(x: GrowthRow)
    requires CanPair(x)
    ensures IsBest(x, [x], {}, SelfPair(x))
  {
    LikeIsClosest(x, x, x);
    ClosestStarts(x, [x], {}, 0);
  }

  lemma ServesSingle(p: GrowthRow, negatives: seq<GrowthRow>, s: Suspicion)
    requires IsBest(p, negatives, {}, s)
    ensures Serves([p], negatives, [s])
  {
    var positives, pairs := [p], [s];
    var init, before := positives[..|positives| - 1], pairs[..|pairs| - 1];
    assert init == [] && before == [] && UsedKeys(before) == {};
    assert Serves(init, negatives, before);
    assert ServesLast(init, p, negatives, pairs);
  }

  /** A large row that grew and is in both lists alone is paired with itself. */
  lemma PairsWithItself(x: GrowthRow)
    requires CanPair(x)
    ensures Pairs([x], [x], [SelfPair(x)]) && !UsesRowsOnce([SelfPair(x)])
  {
    var s := SelfPair(x);
    SortsToItself(x);
    SelfIsBest(x);
    ServesSingle(x, [x], s);
    assert KeyOf([s][0].positive) == KeyOf([s][0].negative);
  }

  /** Whatever else the lists hold, a large row in both that grew is the growth of a pair or the shrink
      of one. */
  lemma SharedIsTaken(growths: seq<GrowthRow>, shrinks: seq<GrowthRow>, s: seq<Suspicion>, x: GrowthRow)
    requires UniquePaths(growths) && Pairs(growths, shrinks, s) && x in growths && x in shrinks && CanPair(x)
    ensures IsMatched(s, x) || KeyOf(x) in UsedKeys(s)
  {
    PairsAreMatching(growths, shrinks, s);
    CandidateRows(growths, shrinks);
    LikeIsClosest(x, x, x);
  }
}
