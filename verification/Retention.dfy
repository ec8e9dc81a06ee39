/** Which snapshots a retention run keeps. Times are seconds since the epoch in UTC; the
    calendar that groups days into months is a parameter. */
module Retention {
  import opened Models
  import opened Ids
  import opened Tables

  const SECONDS_PER_HOUR := 3600
  const SECONDS_PER_DAY := 86400

  datatype RetentionPolicy = RetentionPolicy(hourlyDays: int, dailyDays: int, incompleteHours: int)
  {
    predicate Valid() {
      0 < hourlyDays <= dailyDays && 0 < incompleteHours
    }
  }

  /** The cutoffs of one retention run. */
  datatype Cutoffs = Cutoffs(hourly: int, daily: int, incomplete: int)

  function CutoffsAt(policy: RetentionPolicy, now: int): Cutoffs {
    Cutoffs(now - policy.hourlyDays * SECONDS_PER_DAY, now - policy.dailyDays * SECONDS_PER_DAY,
            now - policy.incompleteHours * SECONDS_PER_HOUR)
  }

  type Calendar = int -> int

  datatype DayBucket = DayBucket(root: Root, day: int)
  datatype MonthBucket = MonthBucket(root: Root, month: int)

  function Day(time: int): int {
    time / SECONDS_PER_DAY
  }

  /** A snapshot that can represent a bucket: later finish wins, then larger id. */
  datatype Representative = Representative(finishedAt: int, id: SnapshotId)
  {
    predicate LaterThan(other: Representative) {
      finishedAt > other.finishedAt || (finishedAt == other.finishedAt && id > other.id)
    }
  }

  type Snapshots = map<SnapshotId, Snapshot>

  predicate IsFinished(s: Snapshot) {
    s.status == Complete && s.finishedAt.Some?
  }

  predicate IsRecent(s: Snapshot, c: Cutoffs) {
    IsFinished(s) && s.finishedAt.value >= c.hourly
  }

  predicate IsDaily(s: Snapshot, c: Cutoffs) {
    IsFinished(s) && c.daily <= s.finishedAt.value < c.hourly
  }

  predicate IsEvidence(s: Snapshot, c: Cutoffs) {
    s.status != Complete && (if s.finishedAt.Some? then s.finishedAt.value else s.startedAt) >= c.incomplete
  }

  function RepresentativeOf(all: Snapshots, id: SnapshotId): Representative
    requires id in all && IsFinished(all[id])
  {
    Representative(all[id].finishedAt.value, id)
  }

  function DayOf(s: Snapshot): DayBucket
    requires IsFinished(s)
  {
    DayBucket(s.rootPath, Day(s.finishedAt.value))
  }

  function MonthOf(s: Snapshot, calendar: Calendar): MonthBucket
    requires IsFinished(s)
  {
    MonthBucket(s.rootPath, calendar(Day(s.finishedAt.value)))
  }

  // ----- what is kept

  predicate LatestOfDay(all: Snapshots, c: Cutoffs, id: SnapshotId) {
    id in all && IsDaily(all[id], c) &&
    forall k :: k in all && IsDaily(all[k], c) && DayOf(all[k]) == DayOf(all[id]) ==>
      !RepresentativeOf(all, k).LaterThan(RepresentativeOf(all, id))
  }

  predicate LatestOfMonth(all: Snapshots, calendar: Calendar, id: SnapshotId) {
    id in all && IsFinished(all[id]) &&
    forall k :: k in all && IsFinished(all[k]) && MonthOf(all[k], calendar) == MonthOf(all[id], calendar) ==>
      !RepresentativeOf(all, k).LaterThan(RepresentativeOf(all, id))
  }

  predicate Keeps(all: Snapshots, c: Cutoffs, calendar: Calendar, id: SnapshotId) {
    id in all &&
    (IsEvidence(all[id], c) || IsRecent(all[id], c) || LatestOfDay(all, c, id) || LatestOfMonth(all, calendar, id))
  }

  function Retained(all: Snapshots, c: Cutoffs, calendar: Calendar): set<SnapshotId> {
    set id | id in all && Keeps(all, c, calendar, id)
  }

  // ----- the selection loop

  /** A row of the snapshot table. */
  datatype SnapshotRow = SnapshotRow(id: SnapshotId, snapshot: Snapshot)

  function Without(all: Snapshots, id: SnapshotId): (rest: Snapshots)
    requires id in all
    ensures rest[id := all[id]] == all && rest.Keys == all.Keys - {id}
  {
    map k | k in all && k != id :: all[k]
  }

  /** SELECT ... FROM snapshots ORDER BY id. */
  function OrderedRows(all: Snapshots): seq<SnapshotRow>
    decreases |all.Keys|
  {
    if all.Keys == {} then []
    else
      var last := MaxOf(all.Keys);
      OrderedRows(Without(all, last)) + [SnapshotRow(last, all[last])]
  }

  function TableOf(rows: seq<SnapshotRow>): Snapshots {
    if rows == [] then map[]
    else TableOf(rows[..|rows| - 1])[rows[|rows| - 1].id := rows[|rows| - 1].snapshot]
  }

  predicate DistinctIds(rows: seq<SnapshotRow>) {
    rows == [] || (DistinctIds(rows[..|rows| - 1]) && rows[|rows| - 1].id !in TableOf(rows[..|rows| - 1]))
  }

  lemma {:induction false} OrderedRowsHoldTable(all: Snapshots)
    ensures TableOf(OrderedRows(all)) == all && DistinctIds(OrderedRows(all))
    decreases |all.Keys|
  {
    if all.Keys == {} {
      assert all == map[];
    } else {
      var last := MaxOf(all.Keys);
      OrderedRowsHoldTable(Without(all, last));
      var rows := OrderedRows(all);
      assert rows[..|rows| - 1] == OrderedRows(Without(all, last));
    }
  }

  lemma {:induction false} PrefixIsDistinct(rows: seq<SnapshotRow>, n: nat)
    requires DistinctIds(rows) && n <= |rows|
    ensures DistinctIds(rows[..n])
    decreases |rows|
  {
    if n == |rows| {
      assert rows[..n] == rows;
    } else {
      PrefixIsDistinct(rows[..|rows| - 1], n);
      assert rows[..|rows| - 1][..n] == rows[..n];
    }
  }

  /** Keeps the later of two representatives of a bucket. */
  function Improve<B>(representatives: map<B, Representative>, bucket: B, r: Representative): map<B, Representative> {
    if bucket !in representatives || r.LaterThan(representatives[bucket]) then representatives[bucket := r]
    else representatives
  }

  predicate RepresentsDay(seen: Snapshots, c: Cutoffs, b: DayBucket, r: Representative) {
    LatestOfDay(seen, c, r.id) && DayOf(seen[r.id]) == b && r == RepresentativeOf(seen, r.id)
  }

  predicate IndexesDays(seen: Snapshots, c: Cutoffs, daily: map<DayBucket, Representative>) {
    (forall k :: k in seen && IsDaily(seen[k], c) ==> DayOf(seen[k]) in daily) &&
    (forall b :: b in daily ==> RepresentsDay(seen, c, b, daily[b]))
  }

  predicate RepresentsMonth(seen: Snapshots, calendar: Calendar, b: MonthBucket, r: Representative) {
    LatestOfMonth(seen, calendar, r.id) && MonthOf(seen[r.id], calendar) == b && r == RepresentativeOf(seen, r.id)
  }

  predicate IndexesMonths(seen: Snapshots, calendar: Calendar, monthly: map<MonthBucket, Representative>) {
    (forall k :: k in seen && IsFinished(seen[k]) ==> MonthOf(seen[k], calendar) in monthly) &&
    (forall b :: b in monthly ==> RepresentsMonth(seen, calendar, b, monthly[b]))
  }

  lemma RecordDay(seen: Snapshots, c: Cutoffs, daily: map<DayBucket, Representative>, id: SnapshotId, s: Snapshot)
    requires IndexesDays(seen, c, daily) && id !in seen
    ensures IndexesDays(seen[id := s], c,
              if IsDaily(s, c) then Improve(daily, DayOf(s), Representative(s.finishedAt.value, id)) else daily)
  {
  }

  lemma RecordMonth(seen: Snapshots, calendar: Calendar, monthly: map<MonthBucket, Representative>,
                    id: SnapshotId, s: Snapshot)
    requires IndexesMonths(seen, calendar, monthly) && id !in seen
    ensures IndexesMonths(seen[id := s], calendar,
              if IsFinished(s) then Improve(monthly, MonthOf(s, calendar), Representative(s.finishedAt.value, id))
              else monthly)
  {
  }

  function KeptDirectly(seen: Snapshots, c: Cutoffs): set<SnapshotId> {
    set k | k in seen && (IsEvidence(seen[k], c) || IsRecent(seen[k], c))
  }

  lemma RecordDirectly(seen: Snapshots, c: Cutoffs, id: SnapshotId, s: Snapshot)
    requires id !in seen
    ensures KeptDirectly(seen[id := s], c)
            == KeptDirectly(seen, c) + if IsEvidence(s, c) || IsRecent(s, c) then {id} else {}
  {
  }

  function Chosen<B>(representatives: map<B, Representative>): set<SnapshotId> {
    set b | b in representatives :: representatives[b].id
  }

  lemma ChosenDays(seen: Snapshots, c: Cutoffs, daily: map<DayBucket, Representative>, k: SnapshotId)
    requires IndexesDays(seen, c, daily)
    ensures k in Chosen(daily) <==> LatestOfDay(seen, c, k)
  {
  }

  lemma ChosenMonths(seen: Snapshots, calendar: Calendar, monthly: map<MonthBucket, Representative>, k: SnapshotId)
    requires IndexesMonths(seen, calendar, monthly)
    ensures k in Chosen(monthly) <==> LatestOfMonth(seen, calendar, k)
  {
  }

  lemma SelectionIsRetained(seen: Snapshots, c: Cutoffs, calendar: Calendar,
                            daily: map<DayBucket, Representative>, monthly: map<MonthBucket, Representative>)
    requires IndexesDays(seen, c, daily) && IndexesMonths(seen, calendar, monthly)
    ensures KeptDirectly(seen, c) + Chosen(daily) + Chosen(monthly) == Retained(seen, c, calendar)
  {
    forall k
      ensures k in KeptDirectly(seen, c) + Chosen(daily) + Chosen(monthly) <==> k in Retained(seen, c, calendar)
    {
      ChosenDays(seen, c, daily, k);
      ChosenMonths(seen, calendar, monthly, k);
    }
  }

  /** The kept ids and the representatives belong to the snapshots seen so far. */
  predicate Selects(seen: Snapshots, c: Cutoffs, calendar: Calendar, keepIds: set<SnapshotId>,
                    daily: map<DayBucket, Representative>, monthly: map<MonthBucket, Representative>)
  {
    keepIds == KeptDirectly(seen, c) && IndexesDays(seen, c, daily) && IndexesMonths(seen, calendar, monthly)
  }

  lemma RecordUnfinished(seen: Snapshots, c: Cutoffs, calendar: Calendar, keepIds: set<SnapshotId>,
                         daily: map<DayBucket, Representative>, monthly: map<MonthBucket, Representative>,
                         id: SnapshotId, s: Snapshot)
    requires Selects(seen, c, calendar, keepIds, daily, monthly) && id !in seen && !IsFinished(s)
    ensures IsEvidence(s, c) ==> Selects(seen[id := s], c, calendar, keepIds + {id}, daily, monthly)
    ensures !IsEvidence(s, c) ==> Selects(seen[id := s], c, calendar, keepIds, daily, monthly)
  {
    RecordDirectly(seen, c, id, s);
    RecordDay(seen, c, daily, id, s);
    RecordMonth(seen, calendar, monthly, id, s);
  }

  lemma RecordFinished(seen: Snapshots, c: Cutoffs, calendar: Calendar, keepIds: set<SnapshotId>,
                       daily: map<DayBucket, Representative>, monthly: map<MonthBucket, Representative>,
                       id: SnapshotId, s: Snapshot)
    requires Selects(seen, c, calendar, keepIds, daily, monthly) && id !in seen && IsFinished(s)
    ensures
      var r := Representative(s.finishedAt.value, id);
      var months := Improve(monthly, MonthOf(s, calendar), r);
      if IsRecent(s, c) then Selects(seen[id := s], c, calendar, keepIds + {id}, daily, months)
      else if IsDaily(s, c) then Selects(seen[id := s], c, calendar, keepIds, Improve(daily, DayOf(s), r), months)
      else Selects(seen[id := s], c, calendar, keepIds, daily, months)
  {
    RecordDirectly(seen, c, id, s);
    RecordDay(seen, c, daily, id, s);
    RecordMonth(seen, calendar, monthly, id, s);
  }

  /** The selection state and, as a ghost, the snapshots recorded in it so far. */
  class SelectionState {
    var keepIds: set<SnapshotId>
    var daily: map<DayBucket, Representative>
    var monthly: map<MonthBucket, Representative>
    ghost var seen: Snapshots
    const cutoffs: Cutoffs
    const calendar: Calendar

    ghost predicate Valid()
      reads this
    {
      Selects(seen, cutoffs, calendar, keepIds, daily, monthly)
    }

    constructor (cutoffs: Cutoffs, calendar: Calendar)
      ensures Valid() && seen == map[] && this.cutoffs == cutoffs && this.calendar == calendar
    {
      this.cutoffs, this.calendar := cutoffs, calendar;
      keepIds, daily, monthly := {}, map[], map[];
      seen := map[];
    }

    /** Records one row of the snapshot table. */
    method Record(row: SnapshotRow)
      requires Valid() && row.id !in seen
      modifies this
      ensures Valid() && seen == old(seen)[row.id := row.snapshot]
    {
      var s := row.snapshot;
      if s.status != Complete {
        RecordEvidence(row.id, s);
      } else if s.finishedAt.Some? {
        RecordComplete(row.id, s);
      } else {
        RecordUnfinished(seen, cutoffs, calendar, keepIds, daily, monthly, row.id, s);
        seen := seen[row.id := s];
      }
    }

    /** A snapshot that is not complete is kept while it is recent. */
    method RecordEvidence(id: SnapshotId, s: Snapshot)
      requires Valid() && id !in seen && s.status != Complete
      modifies this
      ensures Valid() && seen == old(seen)[id := s]
    {
      RecordUnfinished(seen, cutoffs, calendar, keepIds, daily, monthly, id, s);
      seen := seen[id := s];
      var evidenceAt := if s.finishedAt.Some? then s.finishedAt.value else s.startedAt;
      if evidenceAt >= cutoffs.incomplete {
        keepIds := keepIds + {id};
      }
    }

    /** A complete snapshot is kept, or competes for its day, and it always competes for its month. */
    method RecordComplete(id: SnapshotId, s: Snapshot)
      requires Valid() && id !in seen && IsFinished(s)
      modifies this
      ensures Valid() && seen == old(seen)[id := s]
    {
      RecordFinished(seen, cutoffs, calendar, keepIds, daily, monthly, id, s);
      seen := seen[id := s];
      var finishedAt := s.finishedAt.value;
      var representative := Representative(finishedAt, id);
      monthly := Improve(monthly, MonthBucket(s.rootPath, calendar(Day(finishedAt))), representative);
      if finishedAt >= cutoffs.hourly {
        keepIds := keepIds + {id};
        return;
      }
      if finishedAt >= cutoffs.daily {
        daily := Improve(daily, DayBucket(s.rootPath, Day(finishedAt)), representative);
      }
    }
  }

  method SelectRetainedSnapshotIds(all: Snapshots, policy: RetentionPolicy, calendar: Calendar, now: int)
    returns (ids: set<SnapshotId>)
    ensures ids == Retained(all, CutoffsAt(policy, now), calendar)
  {
    var rows := OrderedRows(all);
    OrderedRowsHoldTable(all);
    var state := new SelectionState(CutoffsAt(policy, now), calendar);
    for i := 0 to |rows|
      invariant fresh(state) && state.Valid()
      invariant state.cutoffs == CutoffsAt(policy, now) && state.calendar == calendar
      invariant state.seen == TableOf(rows[..i])
    {
      PrefixIsDistinct(rows, i + 1);
      assert rows[..i + 1][..i] == rows[..i];
      state.Record(rows[i]);
    }
    assert rows[..|rows|] == rows;
    SelectionIsRetained(all, state.cutoffs, calendar, state.daily, state.monthly);
    ids := state.keepIds + Chosen(state.daily) + Chosen(state.monthly);
  }
}
