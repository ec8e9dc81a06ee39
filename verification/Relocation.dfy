/** Pairing large growth with large shrinkage under one parent: a directory that may have moved. */
module Relocation {
  import opened Models
  import opened Paths
  import opened Ordering
  import opened Dominance
  import opened FrontierScopes
  import opened FastFilter

  const MIB := 1048576
  const RELOCATION_MIN_BYTES := 512 * MIB
  const RELOCATION_MATCH_SLOP_BYTES := 256 * MIB

  function Abs(x: int): nat {
    if x < 0 then -x else x
  }

  function Max(a: int, b: int): int {
    if a < b then b else a
  }

  /** A tenth, rounded half to even. */
  function RoundTenth(x: nat): nat {
    var q, r := x / 10, x % 10;
    if r < 5 || (r == 5 && q % 2 == 0) then q else q + 1
  }

  function AllowedGap(growth: GrowthRow, shrink: GrowthRow): int {
    Max(RELOCATION_MATCH_SLOP_BYTES, RoundTenth(Abs(Max(growth.diskDelta, Abs(shrink.diskDelta)))))
  }

  function SizeGap(growth: GrowthRow, shrink: GrowthRow): nat {
    Abs(growth.diskDelta - Abs(shrink.diskDelta))
  }

  function CommonParent(a: Bytes, b: Bytes): Option<Bytes> {
    if ParentOf(a).Some? && ParentOf(a) == ParentOf(b) then ParentOf(a) else None
  }

  /** One scope, one parent, and sizes within the allowed gap. */
  predicate Compatible(growth: GrowthRow, shrink: GrowthRow) {
    growth.scope == shrink.scope && CommonParent(growth.path, shrink.path).Some? &&
    SizeGap(growth, shrink) <= AllowedGap(growth, shrink)
  }

  datatype Suspicion = Suspicion(positive: GrowthRow, negative: GrowthRow, sizeGap: nat, commonParent: Bytes)

  predicate IsLargeGrowth(r: GrowthRow) {
    r.diskDelta >= RELOCATION_MIN_BYTES
  }

  predicate IsLargeShrink(r: GrowthRow) {
    Abs(r.diskDelta) >= RELOCATION_MIN_BYTES
  }

  predicate GrowthLess(a: GrowthRow, b: GrowthRow) {
    a.diskDelta > b.diskDelta ||
    (a.diskDelta == b.diskDelta &&
     (a.apparentDelta > b.apparentDelta ||
      (a.apparentDelta == b.apparentDelta && (a.depth < b.depth || (a.depth == b.depth && BytesLess(a.path, b.path))))))
  }

  predicate ShrinkLess(a: GrowthRow, b: GrowthRow) {
    Abs(a.diskDelta) > Abs(b.diskDelta) ||
    (Abs(a.diskDelta) == Abs(b.diskDelta) && (a.depth < b.depth || (a.depth == b.depth && BytesLess(a.path, b.path))))
  }

  /** A pairing that names the right rows. */
  predicate IsPair(s: Suspicion) {
    IsLargeGrowth(s.positive) && IsLargeShrink(s.negative) && Compatible(s.positive, s.negative) &&
    s.sizeGap == SizeGap(s.positive, s.negative) && Some(s.commonParent) == ParentOf(s.positive.path)
  }

  /** The larger of the two changes of a pair, in bytes. */
  function LargerChange(growth: GrowthRow, shrink: GrowthRow): int {
    Max(growth.diskDelta, Abs(shrink.diskDelta))
  }

  /** The numbers of a pair: both changes are at least 512 MiB, in one scope and under one parent, and
      differ by at most 256 MiB or, up to rounding, a tenth of the larger. */
  lemma PairMeans(s: Suspicion)
    requires IsPair(s)
    ensures s.positive.diskDelta >= 536870912 && Abs(s.negative.diskDelta) >= 536870912
    ensures s.positive.scope == s.negative.scope && ParentOf(s.positive.path) == Some(s.commonParent)
    ensures ParentOf(s.negative.path) == Some(s.commonParent)
    ensures s.sizeGap == Abs(s.positive.diskDelta - Abs(s.negative.diskDelta))
    ensures s.sizeGap <= 268435456 || 10 * s.sizeGap <= LargerChange(s.positive, s.negative) + 5
  {
  }

  /** Every two large changes in one scope and under one parent that are so close can be paired. */
  lemma CloseIsCompatible(growth: GrowthRow, shrink: GrowthRow)
    requires growth.scope == shrink.scope && ParentOf(growth.path).Some?
    requires ParentOf(growth.path) == ParentOf(shrink.path)
    requires
      var gap := Abs(growth.diskDelta - Abs(shrink.diskDelta));
      gap <= 268435456 || 10 * gap < LargerChange(growth, shrink) - 5
    ensures Compatible(growth, shrink)
  {
  }

  function UsedKeys(suspicions: seq<Suspicion>): set<ScopePath> {
    set s | s in suspicions :: KeyOf(s.negative)
  }

  predicate IsMatched(suspicions: seq<Suspicion>, r: GrowthRow) {
    exists k :: 0 <= k < |suspicions| && suspicions[k].positive == r
  }

  predicate IsChoice(positive: GrowthRow, negatives: seq<GrowthRow>, used: set<ScopePath>, s: Suspicion) {
    IsPair(s) && s.positive == positive && s.negative in negatives && KeyOf(s.negative) !in used
  }

  /** Row k can be taken. */
  predicate IsOpenTo(positive: GrowthRow, negatives: seq<GrowthRow>, used: set<ScopePath>, k: int) {
    0 <= k < |negatives| && KeyOf(negatives[k]) !in used && Compatible(positive, negatives[k])
  }

  /** Row k is the first of those among the first n that can be taken with the smallest gap. */
  predicate IsFirstClosest(positive: GrowthRow, negatives: seq<GrowthRow>, used: set<ScopePath>, k: int, n: int) {
    IsOpenTo(positive, negatives, used, k) && k < n <= |negatives| &&
    forall j {:trigger IsOpenTo(positive, negatives, used, j)} ::
      0 <= j < n && IsOpenTo(positive, negatives, used, j) ==>
      var gap, other := SizeGap(positive, negatives[k]), SizeGap(positive, negatives[j]);
      gap < other || (gap == other && k <= j)
  }

  /** The first of the unused compatible rows with the smallest gap. */
  method BestMatch(positive: GrowthRow, negatives: seq<GrowthRow>, used: set<ScopePath>)
    returns (best: Option<Suspicion>)
    requires IsLargeGrowth(positive) && forall i :: 0 <= i < |negatives| ==> IsLargeShrink(negatives[i])
    ensures best.Some? ==> IsBest(positive, negatives, used, best.value)
    ensures best.None? ==> forall k :: !IsOpenTo(positive, negatives, used, k)
  {
    best := None;
    ghost var at := 0;
    for i := 0 to |negatives|
      invariant best.Some? ==> IsChoice(positive, negatives, used, best.value)
      invariant best.Some? ==> IsFirstClosest(positive, negatives, used, at, i) && negatives[at] == best.value.negative
      invariant best.None? ==> forall k :: k < i ==> !IsOpenTo(positive, negatives, used, k)
    {
      var negative := negatives[i];
      if KeyOf(negative) in used || positive.scope != negative.scope {
        continue;
      }
      var parent := CommonParent(positive.path, negative.path);
      if parent.None? {
        continue;
      }
      var gap := SizeGap(positive, negative);
      if gap > AllowedGap(positive, negative) {
        continue;
      }
      assert IsOpenTo(positive, negatives, used, i);
      if best.None? || gap < best.value.sizeGap {
        best, at := Some(Suspicion(positive, negative, gap, parent.value)), i;
      }
    }
  }

  /** Everything the pairing promises after some of the growth candidates. */
  ghost predicate IsMatching(done: seq<GrowthRow>, negatives: seq<GrowthRow>, suspicions: seq<Suspicion>) {
    (forall s :: s in suspicions ==> IsPair(s) && s.positive in done && s.negative in negatives) &&
    (forall j, k :: 0 <= j < k < |suspicions| ==>
      KeyOf(suspicions[j].negative) != KeyOf(suspicions[k].negative) &&
      KeyOf(suspicions[j].positive) != KeyOf(suspicions[k].positive)) &&
    (forall p, n :: p in done && n in negatives && Compatible(p, n) ==>
      IsMatched(suspicions, p) || KeyOf(n) in UsedKeys(suspicions))
  }

  lemma MatchingSkips(done: seq<GrowthRow>, negatives: seq<GrowthRow>, suspicions: seq<Suspicion>, p: GrowthRow)
    requires IsMatching(done, negatives, suspicions)
    requires forall n :: n in negatives && Compatible(p, n) ==> KeyOf(n) in UsedKeys(suspicions)
    ensures IsMatching(done + [p], negatives, suspicions)
  {
  }

  lemma MatchingGrows(done: seq<GrowthRow>, negatives: seq<GrowthRow>, suspicions: seq<Suspicion>, s: Suspicion)
    requires IsMatching(done, negatives, suspicions)
    requires IsPair(s) && s.negative in negatives && KeyOf(s.negative) !in UsedKeys(suspicions)
    requires forall d :: d in done ==> KeyOf(d) != KeyOf(s.positive)
    ensures IsMatching(done + [s.positive], negatives, suspicions + [s])
  {
    var more := suspicions + [s];
    forall j, k | 0 <= j < k < |more|
      ensures KeyOf(more[j].negative) != KeyOf(more[k].negative) && KeyOf(more[j].positive) != KeyOf(more[k].positive)
    {
      assert more[j] in suspicions;
    }
    forall p, n | p in done + [s.positive] && n in negatives && Compatible(p, n)
      ensures IsMatched(more, p) || KeyOf(n) in UsedKeys(more)
    {
      if p == s.positive {
        assert more[|suspicions|].positive == p;
      } else if IsMatched(suspicions, p) {
        var k :| 0 <= k < |suspicions| && suspicions[k].positive == p;
        assert more[k].positive == p;
      } else {
        var u :| u in suspicions && KeyOf(u.negative) == KeyOf(n);
        assert u in more;
      }
    }
  }

  /** Every pair took the closest of the shrink rows that were unused at its turn. */
  predicate ChoosesClosest(negatives: set<GrowthRow>, suspicions: seq<Suspicion>) {
    suspicions != [] ==>
      var init, last := suspicions[..|suspicions| - 1], suspicions[|suspicions| - 1];
      ChoosesClosest(negatives, init) &&
      forall n :: n in negatives && KeyOf(n) !in UsedKeys(init) && Compatible(last.positive, n) ==>
        last.sizeGap <= SizeGap(last.positive, n)
  }

  lemma ClosestGrows(negatives: seq<GrowthRow>, suspicions: seq<Suspicion>, s: Suspicion)
    requires ChoosesClosest(RowSet(negatives), suspicions)
    requires forall n :: n in negatives && KeyOf(n) !in UsedKeys(suspicions) && Compatible(s.positive, n) ==>
               s.sizeGap <= SizeGap(s.positive, n)
    ensures ChoosesClosest(RowSet(negatives), suspicions + [s])
  {
  }

  function LargeShrinks(rows: seq<GrowthRow>): set<GrowthRow> {
    set n | n in rows && IsLargeShrink(n)
  }

  function RowSet(rows: seq<GrowthRow>): set<GrowthRow> {
    set r | r in rows
  }

  /** The suspicion of a growth row at its turn. */
  ghost predicate IsBest(positive: GrowthRow, negatives: seq<GrowthRow>, used: set<ScopePath>, s: Suspicion) {
    IsChoice(positive, negatives, used, s) &&
    exists k :: IsFirstClosest(positive, negatives, used, k, |negatives|) && negatives[k] == s.negative
  }

  /** The growth rows are served one after the other: each takes the first of the closest shrink rows
      that are still unused, or nothing when none can be taken. */
  ghost predicate Serves(positives: seq<GrowthRow>, negatives: seq<GrowthRow>, suspicions: seq<Suspicion>)
    decreases |positives|, 0
  {
    if positives == [] then suspicions == []
    else
      var init, positive := positives[..|positives| - 1], positives[|positives| - 1];
      ServesLast(init, positive, negatives, suspicions) ||
      ((forall k :: !IsOpenTo(positive, negatives, UsedKeys(suspicions), k)) && Serves(init, negatives, suspicions))
  }

  ghost predicate ServesLast(init: seq<GrowthRow>, positive: GrowthRow, negatives: seq<GrowthRow>,
                             suspicions: seq<Suspicion>)
    decreases |init|, 1
  {
    suspicions != [] &&
    var before, last := suspicions[..|suspicions| - 1], suspicions[|suspicions| - 1];
    IsBest(positive, negatives, UsedKeys(before), last) && Serves(init, negatives, before)
  }

  lemma {:induction false} ServedIsSorted(positives: seq<GrowthRow>, negatives: seq<GrowthRow>,
                                          suspicions: seq<Suspicion>)
    requires Serves(positives, negatives, suspicions) && SortedBy(GrowthLess, positives)
    ensures forall k :: 0 <= k < |suspicions| ==> suspicions[k].positive in positives
    ensures forall j, k :: 0 <= j < k < |suspicions| ==> !GrowthLess(suspicions[k].positive, suspicions[j].positive)
    decreases |positives|
  {
    if positives != [] {
      var init, positive := positives[..|positives| - 1], positives[|positives| - 1];
      if ServesLast(init, positive, negatives, suspicions) {
        ServedIsSorted(init, negatives, suspicions[..|suspicions| - 1]);
      } else {
        ServedIsSorted(init, negatives, suspicions);
      }
    }
  }

  lemma BestIsClosest(positive: GrowthRow, negatives: seq<GrowthRow>, used: set<ScopePath>, s: Suspicion, n: GrowthRow)
    requires IsBest(positive, negatives, used, s)
    requires n in negatives && KeyOf(n) !in used && Compatible(positive, n)
    ensures s.sizeGap <= SizeGap(positive, n)
  {
    var j :| 0 <= j < |negatives| && negatives[j] == n;
    assert IsOpenTo(positive, negatives, used, j);
  }

  /** Everything that is known after some of the growth rows. */
  ghost predicate Paired(done: seq<GrowthRow>, negatives: seq<GrowthRow>, suspicions: seq<Suspicion>) {
    IsMatching(done, negatives, suspicions) && ChoosesClosest(RowSet(negatives), suspicions) &&
    Serves(done, negatives, suspicions)
  }

  lemma PairNext(done: seq<GrowthRow>, negatives: seq<GrowthRow>, suspicions: seq<Suspicion>, s: Suspicion)
    requires Paired(done, negatives, suspicions) && IsBest(s.positive, negatives, UsedKeys(suspicions), s)
    requires forall d :: d in done ==> KeyOf(d) != KeyOf(s.positive)
    ensures Paired(done + [s.positive], negatives, suspicions + [s])
  {
    MatchingGrows(done, negatives, suspicions, s);
    forall n | n in negatives && KeyOf(n) !in UsedKeys(suspicions) && Compatible(s.positive, n)
      ensures s.sizeGap <= SizeGap(s.positive, n)
    {
      BestIsClosest(s.positive, negatives, UsedKeys(suspicions), s, n);
    }
    ClosestGrows(negatives, suspicions, s);
    assert (done + [s.positive])[..|done|] == done && (suspicions + [s])[..|suspicions|] == suspicions;
    assert ServesLast(done, s.positive, negatives, suspicions + [s]);
  }

  lemma PairNone(done: seq<GrowthRow>, negatives: seq<GrowthRow>, suspicions: seq<Suspicion>, p: GrowthRow)
    requires Paired(done, negatives, suspicions)
    requires forall k :: !IsOpenTo(p, negatives, UsedKeys(suspicions), k)
    ensures Paired(done + [p], negatives, suspicions)
  {
    forall n | n in negatives && Compatible(p, n)
      ensures KeyOf(n) in UsedKeys(suspicions)
    {
      var k :| 0 <= k < |negatives| && negatives[k] == n;
      assert !IsOpenTo(p, negatives, UsedKeys(suspicions), k);
    }
    MatchingSkips(done, negatives, suspicions, p);
    assert (done + [p])[..|done|] == done;
  }

  lemma NewToPrefix(rows: seq<GrowthRow>, i: nat)
    requires UniquePaths(rows) && i < |rows|
    ensures rows[..i + 1] == rows[..i] + [rows[i]]
    ensures forall d :: d in rows[..i] ==> KeyOf(d) != KeyOf(rows[i])
  {
    forall d | d in rows[..i]
      ensures KeyOf(d) != KeyOf(rows[i])
    {
      var k :| 0 <= k < i && rows[k] == d;
      assert Differ(rows, k, i);
    }
  }

  lemma UsedGrows(suspicions: seq<Suspicion>, s: Suspicion)
    ensures UsedKeys(suspicions + [s]) == UsedKeys(suspicions) + {KeyOf(s.negative)}
  {
  }

  /** Goes through the growth candidates, giving each the closest unused shrink row. */
  method PairUp(positives: seq<GrowthRow>, negatives: seq<GrowthRow>) returns (suspicions: seq<Suspicion>)
    requires UniquePaths(positives)
    requires forall i :: 0 <= i < |positives| ==> IsLargeGrowth(positives[i])
    requires forall i :: 0 <= i < |negatives| ==> IsLargeShrink(negatives[i])
    ensures Paired(positives, negatives, suspicions)
  {
    suspicions := [];
    var used: set<ScopePath> := {};
    for i := 0 to |positives|
      invariant Paired(positives[..i], negatives, suspicions) && used == UsedKeys(suspicions)
    {
      var best := BestMatch(positives[i], negatives, used);
      NewToPrefix(positives, i);
      if best.Some? {
        PairNext(positives[..i], negatives, suspicions, best.value);
        UsedGrows(suspicions, best.value);
        used := used + {KeyOf(best.value.negative)};
        suspicions := suspicions + [best.value];
      } else {
        PairNone(positives[..i], negatives, suspicions, positives[i]);
      }
    }
    assert positives[..|positives|] == positives;
  }

  lemma GrowthOrder(a: GrowthRow, b: GrowthRow, c: GrowthRow)
    ensures GrowthLess(a, b) ==> !GrowthLess(b, a)
    ensures GrowthLess(a, b) && GrowthLess(b, c) ==> GrowthLess(a, c)
  {
    BytesLessIsStrict(a.path, b.path, c.path);
  }

  lemma GrowthLessIsStrict()
    ensures StrictOrder(GrowthLess)
  {
    forall a, b, c
      ensures GrowthLess(a, b) ==> !GrowthLess(b, a)
      ensures GrowthLess(a, b) && GrowthLess(b, c) ==> GrowthLess(a, c)
    {
      GrowthOrder(a, b, c);
    }
  }

  function GrowthCandidates(rows: seq<GrowthRow>): seq<GrowthRow> {
    Sort(GrowthLess, Filter(IsLargeGrowth, rows))
  }

  function ShrinkCandidates(rows: seq<GrowthRow>): seq<GrowthRow> {
    Sort(ShrinkLess, Filter(IsLargeShrink, rows))
  }

  /** A maximal matching: pairs are compatible, no row is twice on one side, and no large growth row is
      left beside a compatible large shrink row that is unused. The largest growth is served first, and
      takes the first of the closest rows that are left. */
  method RelocationSuspicions(positiveRows: seq<GrowthRow>, negativeRows: seq<GrowthRow>)
    returns (suspicions: seq<Suspicion>)
    requires UniquePaths(positiveRows)
    ensures forall s :: s in suspicions ==> IsPair(s) && s.positive in positiveRows && s.negative in negativeRows
    ensures forall j, k :: 0 <= j < k < |suspicions| ==>
              KeyOf(suspicions[j].negative) != KeyOf(suspicions[k].negative) &&
              KeyOf(suspicions[j].positive) != KeyOf(suspicions[k].positive)
    ensures forall p, n :: p in positiveRows && IsLargeGrowth(p) && n in negativeRows && IsLargeShrink(n) &&
                           Compatible(p, n) ==>
              IsMatched(suspicions, p) || KeyOf(n) in UsedKeys(suspicions)
    ensures ChoosesClosest(LargeShrinks(negativeRows), suspicions)
    ensures Serves(GrowthCandidates(positiveRows), ShrinkCandidates(negativeRows), suspicions)
    ensures forall j, k :: 0 <= j < k < |suspicions| ==> !GrowthLess(suspicions[k].positive, suspicions[j].positive)
  {
    var positives := GrowthCandidates(positiveRows);
    var negatives := ShrinkCandidates(negativeRows);
    FilterIsUnique(IsLargeGrowth, positiveRows);
    PermutationIsUnique(Filter(IsLargeGrowth, positiveRows), positives);
    forall r
      ensures r in positives <==> r in positiveRows && IsLargeGrowth(r)
      ensures r in negatives <==> r in negativeRows && IsLargeShrink(r)
    {
      SortMembers(GrowthLess, Filter(IsLargeGrowth, positiveRows), r);
      FilterMember(IsLargeGrowth, positiveRows, r);
      SortMembers(ShrinkLess, Filter(IsLargeShrink, negativeRows), r);
      FilterMember(IsLargeShrink, negativeRows, r);
    }
    assert forall i :: 0 <= i < |positives| ==> positives[i] in positives;
    assert forall i :: 0 <= i < |negatives| ==> negatives[i] in negatives;
    assert RowSet(negatives) == LargeShrinks(negativeRows);
    suspicions := PairUp(positives, negatives);
    GrowthLessIsStrict();
    SortIsSorted(GrowthLess, Filter(IsLargeGrowth, positiveRows));
    ServedIsSorted(positives, negatives, suspicions);
  }

  // ----- the order of the candidates

  lemma ShrinkOrder(a: GrowthRow, b: GrowthRow, c: GrowthRow)
    ensures ShrinkLess(a, b) ==> !ShrinkLess(b, a)
    ensures ShrinkLess(a, b) && ShrinkLess(b, c) ==> ShrinkLess(a, c)
  {
    BytesLessIsStrict(a.path, b.path, c.path);
  }

  /** Growths come with the largest first, on disk and then in apparent bytes, shrinks with the largest
      change on disk first; then the least deep, and then the first path. */
  lemma CandidatesAreOrdered(positiveRows: seq<GrowthRow>, negativeRows: seq<GrowthRow>, i: nat, j: nat)
    requires i < j
    ensures
      var p := GrowthCandidates(positiveRows);
      j < |p| ==>
        p[i].diskDelta > p[j].diskDelta ||
        (p[i].diskDelta == p[j].diskDelta &&
         (p[i].apparentDelta > p[j].apparentDelta ||
          (p[i].apparentDelta == p[j].apparentDelta &&
           (p[i].depth < p[j].depth || (p[i].depth == p[j].depth && !BytesLess(p[j].path, p[i].path))))))
    ensures
      var n := ShrinkCandidates(negativeRows);
      j < |n| ==>
        Abs(n[i].diskDelta) > Abs(n[j].diskDelta) ||
        (Abs(n[i].diskDelta) == Abs(n[j].diskDelta) &&
         (n[i].depth < n[j].depth || (n[i].depth == n[j].depth && !BytesLess(n[j].path, n[i].path))))
  {
    GrowthLessIsStrict();
    SortIsSorted(GrowthLess, Filter(IsLargeGrowth, positiveRows));
    forall a, b, c
      ensures ShrinkLess(a, b) ==> !ShrinkLess(b, a)
      ensures ShrinkLess(a, b) && ShrinkLess(b, c) ==> ShrinkLess(a, c)
    {
      ShrinkOrder(a, b, c);
    }
    SortIsSorted(ShrinkLess, Filter(IsLargeShrink, negativeRows));
  }
}
