/** What retention promises about single runs and about runs in sequence. */
module RetentionLaws {
  import opened Models
  import opened Ids
  import opened Tables
  import opened Retention

  // ----- every non-empty bucket has exactly one latest member

  predicate HasLatest(all: Snapshots, ids: set<SnapshotId>, m: SnapshotId)
    requires forall k :: k in ids ==> k in all && IsFinished(all[k])
  {
    m in ids && forall k :: k in ids ==> !RepresentativeOf(all, k).LaterThan(RepresentativeOf(all, m))
  }

  lemma {:induction false} LatestExists(all: Snapshots, ids: set<SnapshotId>) returns (m: SnapshotId)
    requires ids != {} && forall k :: k in ids ==> k in all && IsFinished(all[k])
    ensures HasLatest(all, ids, m)
    decreases |ids|
  {
    NonEmpty(ids);
    var k :| k in ids;
    var rest := ids - {k};
    assert forall j :: j in ids ==> j == k || j in rest;
    if rest == {} {
      m := k;
    } else {
      var n := LatestExists(all, rest);
      m := if RepresentativeOf(all, k).LaterThan(RepresentativeOf(all, n)) then k else n;
    }
  }

  lemma LatestOfDayExists(all: Snapshots, c: Cutoffs, k: SnapshotId) returns (m: SnapshotId)
    requires k in all && IsDaily(all[k], c)
    ensures LatestOfDay(all, c, m) && DayOf(all[m]) == DayOf(all[k])
  {
    var bucket := set j | j in all && IsDaily(all[j], c) && DayOf(all[j]) == DayOf(all[k]);
    assert k in bucket;
    m := LatestExists(all, bucket);
    assert forall j :: j in all && IsDaily(all[j], c) && DayOf(all[j]) == DayOf(all[m]) ==> j in bucket;
  }

  lemma LatestOfMonthExists(all: Snapshots, calendar: Calendar, k: SnapshotId) returns (m: SnapshotId)
    requires k in all && IsFinished(all[k])
    ensures LatestOfMonth(all, calendar, m) && MonthOf(all[m], calendar) == MonthOf(all[k], calendar)
  {
    var bucket := set j | j in all && IsFinished(all[j]) && MonthOf(all[j], calendar) == MonthOf(all[k], calendar);
    assert k in bucket;
    m := LatestExists(all, bucket);
    assert forall j :: j in all && IsFinished(all[j]) && MonthOf(all[j], calendar) == MonthOf(all[m], calendar) ==>
        j in bucket;
  }

  // ----- one run

  /** A complete snapshot that finished in the given time of seconds, its end excluded. */
  predicate FinishedWithin(all: Snapshots, k: SnapshotId, from: int, to: int) {
    k in all && all[k].status == Complete && all[k].finishedAt.Some? && from <= all[k].finishedAt.value < to
  }

  predicate SameRootAndDay(all: Snapshots, j: SnapshotId, k: SnapshotId)
    requires j in all && IsFinished(all[j]) && k in all && IsFinished(all[k])
  {
    all[j].rootPath == all[k].rootPath && all[j].finishedAt.value / 86400 == all[k].finishedAt.value / 86400
  }

  /** Finished later, or at the same time under a larger id. */
  predicate IsLater(all: Snapshots, j: SnapshotId, k: SnapshotId)
    requires j in all && IsFinished(all[j]) && k in all && IsFinished(all[k])
  {
    all[j].finishedAt.value > all[k].finishedAt.value ||
    (all[j].finishedAt.value == all[k].finishedAt.value && j > k)
  }

  predicate LastOfItsDay(all: Snapshots, k: SnapshotId, from: int, to: int)
    requires k in all && IsFinished(all[k])
  {
    forall j :: j in all && FinishedWithin(all, j, from, to) && SameRootAndDay(all, j, k) ==> !IsLater(all, j, k)
  }

  predicate LastOfItsMonth(all: Snapshots, calendar: Calendar, k: SnapshotId)
    requires k in all && IsFinished(all[k])
  {
    forall j :: (j in all && IsFinished(all[j]) && all[j].rootPath == all[k].rootPath &&
                 calendar(all[j].finishedAt.value / 86400) == calendar(all[k].finishedAt.value / 86400)) ==>
      !IsLater(all, j, k)
  }

  /** A snapshot that is not complete is kept exactly while its finish, or its start when it has none, is
      no older than the hours for incomplete ones. */
  lemma IncompleteKeptIff(all: Snapshots, policy: RetentionPolicy, calendar: Calendar, now: int, k: SnapshotId)
    requires k in all && all[k].status != Complete
    ensures k in Retained(all, CutoffsAt(policy, now), calendar) <==>
            (if all[k].finishedAt.Some? then all[k].finishedAt.value else all[k].startedAt)
            >= now - policy.incompleteHours * 3600
  {
  }

  /** A complete snapshot is kept exactly when it finished within the hourly days, or is the last of its
      root and day in the rest of the daily window, or the last of its root and month. One that never
      finished is not kept. */
  lemma CompleteKeptIff(all: Snapshots, policy: RetentionPolicy, calendar: Calendar, now: int, k: SnapshotId)
    requires k in all && all[k].status == Complete
    ensures
      var hourly, daily := now - policy.hourlyDays * 86400, now - policy.dailyDays * 86400;
      k in Retained(all, CutoffsAt(policy, now), calendar) <==>
      all[k].finishedAt.Some? &&
      (all[k].finishedAt.value >= hourly ||
       (FinishedWithin(all, k, daily, hourly) && LastOfItsDay(all, k, daily, hourly)) ||
       LastOfItsMonth(all, calendar, k))
  {
    var c := CutoffsAt(policy, now);
    if all[k].finishedAt.Some? {
      DayMeans(all, c, k);
      MonthMeans(all, calendar, k);
    }
  }

  lemma DayMeans(all: Snapshots, c: Cutoffs, k: SnapshotId)
    requires k in all && IsFinished(all[k])
    ensures LatestOfDay(all, c, k) <==>
            FinishedWithin(all, k, c.daily, c.hourly) && LastOfItsDay(all, k, c.daily, c.hourly)
  {
  }

  lemma MonthMeans(all: Snapshots, calendar: Calendar, k: SnapshotId)
    requires k in all && IsFinished(all[k])
    ensures LatestOfMonth(all, calendar, k) <==> LastOfItsMonth(all, calendar, k)
  {
  }

  lemma LastIsOne(all: Snapshots, j: SnapshotId, m: SnapshotId, from: int, to: int)
    requires FinishedWithin(all, j, from, to) && FinishedWithin(all, m, from, to) && SameRootAndDay(all, j, m)
    requires LastOfItsDay(all, j, from, to) && LastOfItsDay(all, m, from, to)
    ensures j == m
  {
    assert !IsLater(all, j, m) && !IsLater(all, m, j);
  }

  lemma DailyKeptIff(all: Snapshots, c: Cutoffs, calendar: Calendar, k: SnapshotId)
    requires FinishedWithin(all, k, c.daily, c.hourly)
    ensures Keeps(all, c, calendar, k) <==> LastOfItsDay(all, k, c.daily, c.hourly)
  {
    DayMeans(all, c, k);
    if Keeps(all, c, calendar, k) {
      MonthImpliesDay(all, c, calendar, k);
    }
  }

  /** Inside the daily window each root and day of 86400 seconds keeps exactly one complete snapshot, m,
      the last. */
  lemma DailyWindowKeepsOnePerDay(all: Snapshots, policy: RetentionPolicy, calendar: Calendar, now: int,
                                  k: SnapshotId) returns (m: SnapshotId)
    requires FinishedWithin(all, k, now - policy.dailyDays * 86400, now - policy.hourlyDays * 86400)
    ensures
      var hourly, daily := now - policy.hourlyDays * 86400, now - policy.dailyDays * 86400;
      var retained := Retained(all, CutoffsAt(policy, now), calendar);
      FinishedWithin(all, m, daily, hourly) && SameRootAndDay(all, m, k) && LastOfItsDay(all, m, daily, hourly) &&
      forall j :: FinishedWithin(all, j, daily, hourly) && SameRootAndDay(all, j, k) ==> (j in retained <==> j == m)
  {
    var c := CutoffsAt(policy, now);
    m := LatestOfDayExists(all, c, k);
    DayMeans(all, c, m);
    DailyKeptIff(all, c, calendar, m);
    forall j | FinishedWithin(all, j, c.daily, c.hourly) && SameRootAndDay(all, j, k)
      ensures Keeps(all, c, calendar, j) <==> j == m
    {
      DailyKeptIff(all, c, calendar, j);
      if Keeps(all, c, calendar, j) {
        LastIsOne(all, j, m, c.daily, c.hourly);
      }
    }
  }

  lemma MonthImpliesDay(all: Snapshots, c: Cutoffs, calendar: Calendar, j: SnapshotId)
    requires j in all && IsDaily(all[j], c) && Keeps(all, c, calendar, j)
    ensures LatestOfDay(all, c, j)
  {
    if LatestOfMonth(all, calendar, j) {
      assert forall i :: i in all && IsDaily(all[i], c) && DayOf(all[i]) == DayOf(all[j]) ==>
          MonthOf(all[i], calendar) == MonthOf(all[j], calendar);
    }
  }

  /** Before the daily window only the latest snapshot of a whole month survives. The
      documentation promises one per month beyond the window; a month that reaches into
      the window keeps its latest snapshot there instead. */
  lemma OldSnapshotKeptIffLatestOfMonth(all: Snapshots, c: Cutoffs, calendar: Calendar, k: SnapshotId)
    requires c.daily <= c.hourly
    requires k in all && IsFinished(all[k]) && all[k].finishedAt.value < c.daily
    ensures Keeps(all, c, calendar, k) <==> LatestOfMonth(all, calendar, k)
  {
  }

  /** The latest complete snapshot of a root survives every run, whatever the windows, and
      so does the latest of every month. */
  lemma LatestPerRootIsKept(all: Snapshots, c: Cutoffs, calendar: Calendar, k: SnapshotId)
    requires k in all && IsFinished(all[k])
    requires forall j :: j in all && IsFinished(all[j]) && all[j].rootPath == all[k].rootPath ==>
               !RepresentativeOf(all, j).LaterThan(RepresentativeOf(all, k))
    ensures Keeps(all, c, calendar, k)
  {
    assert LatestOfMonth(all, calendar, k);
  }

  lemma EveryMonthKeepsOne(all: Snapshots, c: Cutoffs, calendar: Calendar, k: SnapshotId)
    requires k in all && IsFinished(all[k])
    ensures exists m :: Keeps(all, c, calendar, m) && IsFinished(all[m]) &&
                        MonthOf(all[m], calendar) == MonthOf(all[k], calendar)
  {
    var m := LatestOfMonthExists(all, calendar, k);
    assert Keeps(all, c, calendar, m);
  }

  /** A month can lose every snapshot it has beyond the daily window: with windows of 3 and 90
      days, on day 91, a month of which day 0 is beyond the window and day 2 is not. */
  lemma MonthBeyondWindowCanBeEmptied()
    returns (all: Snapshots, policy: RetentionPolicy, calendar: Calendar, now: int, k: SnapshotId)
    ensures policy.Valid() && BeyondWindow(all, CutoffsAt(policy, now), k)
    ensures forall m :: BeyondWindow(all, CutoffsAt(policy, now), m) && SameMonth(all, calendar, m, k) ==>
              !Keeps(all, CutoffsAt(policy, now), calendar, m)
  {
    var aged := Snapshot("/", Complete, 0, Some(0));
    var recent := Snapshot("/", Complete, 2 * SECONDS_PER_DAY, Some(2 * SECONDS_PER_DAY));
    all, k := map[1 := aged, 2 := recent], 1;
    policy, now := RetentionPolicy(3, 90, 24), 91 * SECONDS_PER_DAY;
    calendar := day => day / 30;
    assert RepresentativeOf(all, 2).LaterThan(RepresentativeOf(all, 1));
    assert 1 in all && all[1] == aged;
  }

  /** A finished complete snapshot before the daily window. */
  predicate BeyondWindow(all: Snapshots, c: Cutoffs, k: SnapshotId) {
    k in all && IsFinished(all[k]) && all[k].finishedAt.value < c.daily
  }

  predicate SameMonth(all: Snapshots, calendar: Calendar, m: SnapshotId, k: SnapshotId)
    requires m in all && IsFinished(all[m]) && k in all && IsFinished(all[k])
  {
    MonthOf(all[m], calendar) == MonthOf(all[k], calendar)
  }

  /** A month with a snapshot beyond the daily window keeps one beyond it exactly when it has none
      inside. */
  lemma MonthBeyondWindowKeepsIff(all: Snapshots, c: Cutoffs, calendar: Calendar, k: SnapshotId)
    requires c.daily <= c.hourly && BeyondWindow(all, c, k)
    ensures
      (exists m :: BeyondWindow(all, c, m) && SameMonth(all, calendar, m, k) && Keeps(all, c, calendar, m)) <==>
      forall j :: j in all && IsFinished(all[j]) && SameMonth(all, calendar, j, k) ==> BeyondWindow(all, c, j)
  {
    if m :| BeyondWindow(all, c, m) && SameMonth(all, calendar, m, k) && Keeps(all, c, calendar, m) {
      assert LatestOfMonth(all, calendar, m);
      forall j | j in all && IsFinished(all[j]) && SameMonth(all, calendar, j, k)
        ensures BeyondWindow(all, c, j)
      {
        assert !RepresentativeOf(all, j).LaterThan(RepresentativeOf(all, m));
      }
    }
    var latest := LatestOfMonthExists(all, calendar, k);
    assert SameMonth(all, calendar, latest, k) && Keeps(all, c, calendar, latest);
  }

  // ----- runs in sequence

  predicate NotLater(earlier: Cutoffs, later: Cutoffs) {
    earlier.hourly <= later.hourly && earlier.daily <= later.daily && earlier.incomplete <= later.incomplete
  }

  lemma LaterRunHasLaterCutoffs(policy: RetentionPolicy, t1: int, t2: int)
    requires policy.Valid() && t1 <= t2
    ensures NotLater(CutoffsAt(policy, t1), CutoffsAt(policy, t2))
    ensures CutoffsAt(policy, t1).daily <= CutoffsAt(policy, t1).hourly
  {
  }

  /** What a later run keeps an earlier one kept already, even when the later run also sees
      snapshots added in between. */
  lemma KeptLaterIsKeptEarlier(some: Snapshots, all: Snapshots, c1: Cutoffs, c2: Cutoffs, calendar: Calendar,
                               k: SnapshotId)
    requires NotLater(c1, c2)
    requires forall j :: j in some ==> j in all && all[j] == some[j]
    requires k in some && Keeps(all, c2, calendar, k)
    ensures Keeps(some, c1, calendar, k)
  {
    if LatestOfDay(all, c2, k) && !IsRecent(some[k], c1) {
      assert IsDaily(some[k], c1);
      forall j | j in some && IsDaily(some[j], c1) && DayOf(some[j]) == DayOf(some[k])
        ensures !RepresentativeOf(some, j).LaterThan(RepresentativeOf(some, k))
      {
        assert IsDaily(all[j], c2) ==> !RepresentativeOf(all, j).LaterThan(RepresentativeOf(all, k));
      }
      assert LatestOfDay(some, c1, k);
    }
    if LatestOfMonth(all, calendar, k) {
      assert LatestOfMonth(some, calendar, k);
    }
  }

  function Restrict(all: Snapshots, ids: set<SnapshotId>): Snapshots {
    map k | k in all && k in ids :: all[k]
  }

  /** Pruning early changes nothing that a later run selects: with t1 <= t2 under one policy,
      and any snapshots added in between, also under ids that the early run freed, selecting from
      the survivors and the additions equals selecting from everything. */
  lemma EarlierPruneIsInvisible(all: Snapshots, added: Snapshots, policy: RetentionPolicy, calendar: Calendar,
                                t1: int, t2: int)
    requires policy.Valid() && t1 <= t2
    requires Retained(all, CutoffsAt(policy, t1), calendar) !! added.Keys
    ensures
      var survivors := Restrict(all, Retained(all, CutoffsAt(policy, t1), calendar));
      Retained(survivors + added, CutoffsAt(policy, t2), calendar)
      == Retained(all + added, CutoffsAt(policy, t2), calendar)
  {
    LaterRunHasLaterCutoffs(policy, t1, t2);
    var c1 := CutoffsAt(policy, t1);
    var c2 := CutoffsAt(policy, t2);
    var survivors := Restrict(all, Retained(all, c1, calendar));
    var others := all - added.Keys;
    SelectionFromSuperset(others, all, c1, calendar);
    forall k | k in all + added && Keeps(all + added, c2, calendar, k)
      ensures k in survivors + added
    {
      if k !in added {
        KeptLaterIsKeptEarlier(others, all + added, c1, c2, calendar, k);
        assert k in Retained(others, c1, calendar);
      }
    }
    SelectionFromSuperset(survivors + added, all + added, c2, calendar);
  }

  /** Leaving out snapshots that are not kept leaves the selection alone. */
  lemma SelectionFromSuperset(some: Snapshots, all: Snapshots, c: Cutoffs, calendar: Calendar)
    requires forall j :: j in some ==> j in all && all[j] == some[j]
    requires forall k :: k in all && Keeps(all, c, calendar, k) ==> k in some
    ensures Retained(some, c, calendar) == Retained(all, c, calendar)
  {
    forall k | k in all && Keeps(all, c, calendar, k)
      ensures Keeps(some, c, calendar, k)
    {
      KeptInSubset(some, all, c, calendar, k);
    }
    forall k | k in some && Keeps(some, c, calendar, k)
      ensures Keeps(all, c, calendar, k)
    {
      if LatestOfDay(some, c, k) {
        var m := LatestOfDayExists(all, c, k);
        assert Keeps(all, c, calendar, m) && m in some;
        assert !RepresentativeOf(some, m).LaterThan(RepresentativeOf(some, k));
        assert m == k;
      }
      if LatestOfMonth(some, calendar, k) {
        var m := LatestOfMonthExists(all, calendar, k);
        assert Keeps(all, c, calendar, m) && m in some;
        assert !RepresentativeOf(some, m).LaterThan(RepresentativeOf(some, k));
        assert m == k;
      }
    }
  }

  lemma KeptInSubset(some: Snapshots, all: Snapshots, c: Cutoffs, calendar: Calendar, k: SnapshotId)
    requires forall j :: j in some ==> j in all && all[j] == some[j]
    requires k in some && Keeps(all, c, calendar, k)
    ensures Keeps(some, c, calendar, k)
  {
  }
}
