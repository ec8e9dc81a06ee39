/** Mounts: which mount a path belongs to, and which mounts a scan enters. */
module Mounts {
  import opened Models
  import opened Paths

  datatype Mount = Mount(
    mountId: int,
    majorMinor: string,
    root: Bytes,
    mountPoint: Bytes,
    filesystemType: string,
    mountSource: string)

  function NormalizePoint(point: Bytes): Bytes {
    var stripped := StripRight(point);
    if stripped == [] then ROOT else stripped
  }

  /** Slashes at the end of a mount point do not matter, and slashes alone are the root. */
  lemma NormalizedPoint(point: Bytes)
    ensures
      var p := NormalizePoint(point);
      (p == ROOT <==> forall i :: 0 <= i < |point| ==> point[i] == SLASH) &&
      (p != ROOT ==> p <= point && p[|p| - 1] != SLASH && forall i :: |p| <= i < |point| ==> point[i] == SLASH)
  {
    StripRightMeans(point);
    if StripRight(point) != [] {
      assert point[|StripRight(point)| - 1] != SLASH;
    }
  }

  predicate PathMatchesMount(path: Bytes, point: Bytes) {
    point == ROOT || path == point || (|point| < |path| && path[..|point|] == point && path[|point|] == SLASH)
  }

  /** The length of the mount point, or -1 when the path is not on the mount. */
  function Score(path: Bytes, mount: Mount): (score: int)
    ensures score >= -1
  {
    var point := NormalizePoint(mount.mountPoint);
    if PathMatchesMount(NormalizePoint(path), point) then |point| else -1
  }

  function Scores(path: Bytes, mounts: seq<Mount>): (scores: seq<int>)
    ensures |scores| == |mounts|
    ensures forall i :: 0 <= i < |mounts| ==> scores[i] == Score(path, mounts[i])
  {
    seq(|mounts|, i requires 0 <= i < |mounts| => Score(path, mounts[i]))
  }

  /** The first of the mounts with the longest matching mount point. */
  ghost predicate IsBestMount(path: Bytes, mounts: seq<Mount>, best: Option<Mount>) {
    match best
    case None => forall i :: 0 <= i < |mounts| ==> Score(path, mounts[i]) < 0
    case Some(m) => exists i :: IsBestAt(path, mounts, i) && mounts[i] == m
  }

  predicate IsBestAt(path: Bytes, mounts: seq<Mount>, i: int) {
    0 <= i < |mounts| && FirstMaximum(Scores(path, mounts), i, |mounts|)
  }

  /** The first of the largest scores that are not negative, or -1 when there is none. */
  predicate FirstMaximum(scores: seq<int>, best: int, n: nat)
    requires -1 <= best < n <= |scores|
  {
    if best < 0 then forall j :: 0 <= j < n ==> scores[j] < 0
    else
      scores[best] >= 0 &&
      forall j :: 0 <= j < n ==> scores[j] < scores[best] || (scores[j] == scores[best] && best <= j)
  }

  lemma BestMountIsUnique(path: Bytes, mounts: seq<Mount>, a: Option<Mount>, b: Option<Mount>)
    requires IsBestMount(path, mounts, a) && IsBestMount(path, mounts, b)
    ensures a == b
  {
    if a.Some? && b.Some? {
      var i :| IsBestAt(path, mounts, i) && mounts[i] == a.value;
      var j :| IsBestAt(path, mounts, j) && mounts[j] == b.value;
      assert Scores(path, mounts)[i] == Scores(path, mounts)[j];
    } else if a.Some? {
      SomeExcludesNone(path, mounts, a.value);
    } else if b.Some? {
      SomeExcludesNone(path, mounts, b.value);
    }
  }

  lemma SomeExcludesNone(path: Bytes, mounts: seq<Mount>, m: Mount)
    ensures !(IsBestMount(path, mounts, Some(m)) && IsBestMount(path, mounts, None))
  {
  }

  /** The best index among the first n scores, or -1. */
  function BestIndex(scores: seq<int>, n: nat): (best: int)
    requires n <= |scores|
    ensures -1 <= best < n
  {
    if n == 0 then -1
    else
      var before := BestIndex(scores, n - 1);
      if scores[n - 1] > (if before < 0 then -1 else scores[before]) then n - 1 else before
  }

  lemma {:induction false} BestIndexIsFirst(scores: seq<int>, n: nat)
    requires n <= |scores|
    ensures FirstMaximum(scores, BestIndex(scores, n), n)
  {
    if n > 0 {
      BestIndexIsFirst(scores, n - 1);
    }
  }

  /** The mount search as a function, for use in specifications. */
  function FindMount(path: Bytes, mounts: seq<Mount>): Option<Mount> {
    var i := BestIndex(Scores(path, mounts), |mounts|);
    if i < 0 then None else Some(mounts[i])
  }

  lemma FindMountIsBest(path: Bytes, mounts: seq<Mount>)
    ensures IsBestMount(path, mounts, FindMount(path, mounts))
  {
    var scores := Scores(path, mounts);
    var i := BestIndex(scores, |mounts|);
    BestIndexIsFirst(scores, |mounts|);
    if i < 0 {
      assert forall j :: 0 <= j < |mounts| ==> scores[j] == Score(path, mounts[j]);
    } else {
      assert IsBestAt(path, mounts, i);
    }
  }

  /** The best of the first n scores, as the search remembers it. */
  predicate Remembers(scores: seq<int>, mounts: seq<Mount>, n: nat, best: Option<Mount>, length: int)
    requires n <= |scores| == |mounts|
  {
    var at := BestIndex(scores, n);
    best == (if at < 0 then None else Some(mounts[at])) && length == (if at < 0 then -1 else scores[at])
  }

  lemma RemembersNext(scores: seq<int>, mounts: seq<Mount>, n: nat, best: Option<Mount>, length: int)
    requires n < |scores| == |mounts| && Remembers(scores, mounts, n, best, length)
    ensures if scores[n] > length then Remembers(scores, mounts, n + 1, Some(mounts[n]), scores[n])
            else Remembers(scores, mounts, n + 1, best, length)
  {
  }

  predicate ScoreIs(path: Bytes, mounts: seq<Mount>, scores: seq<int>, i: int) {
    0 <= i < |mounts| && 0 <= i < |scores| && scores[i] == Score(path, mounts[i])
  }

  lemma ScoreList(path: Bytes, mounts: seq<Mount>) returns (scores: seq<int>)
    ensures |scores| == |mounts|
    ensures forall i {:trigger ScoreIs(path, mounts, scores, i)} ::
              0 <= i < |mounts| ==> ScoreIs(path, mounts, scores, i)
    ensures forall best, length :: Remembers(scores, mounts, |mounts|, best, length) ==> best == FindMount(path, mounts)
  {
    scores := Scores(path, mounts);
  }

  /** The linear longest-prefix search. */
  method FindMountForPath(path: Bytes, mounts: seq<Mount>) returns (best: Option<Mount>)
    ensures best == FindMount(path, mounts)
  {
    best := None;
    var bestLength := -1;
    ghost var scores := ScoreList(path, mounts);
    for n := 0 to |mounts|
      invariant Remembers(scores, mounts, n, best, bestLength)
    {
      RemembersNext(scores, mounts, n, best, bestLength);
      assert ScoreIs(path, mounts, scores, n);
      var score := Score(path, mounts[n]);
      if score > bestLength {
        best, bestLength := Some(mounts[n]), score;
      }
    }
  }

  // ----- the indexed resolver

  lemma CanonicalIsNormal(path: Bytes)
    requires Canonical(path)
    ensures NormalizePoint(path) == path
  {
  }

  lemma CanonicalStartsAtRoot(path: Bytes)
    requires Canonical(path)
    ensures ROOT <= path
  {
  }

  /** On canonical paths a mount point matches exactly when the parent walk meets it. */
  lemma MatchIsOnWalk(path: Bytes, point: Bytes)
    requires Canonical(path) && Canonical(point)
    ensures PathMatchesMount(path, point) <==> point == path || IsBelow(path, point)
  {
    WalkIsPrefixTest(path, point);
    CanonicalStartsAtRoot(path);
  }

  /** Mounts by mount point, the first of equals winning, looked up by walking up the path. */
  class MountPrefixResolver {
    var mountByPoint: map<Bytes, Mount>
    ghost var mounts: seq<Mount>

    ghost predicate Valid()
      reads this
    {
      Indexes(mountByPoint, mounts)
    }

    constructor (mounts: seq<Mount>)
      ensures Valid() && this.mounts == mounts
    {
      var byPoint: map<Bytes, Mount> := map[];
      for n := 0 to |mounts|
        invariant Indexes(byPoint, mounts[..n])
      {
        assert mounts[..n + 1] == mounts[..n] + [mounts[n]];
        IndexNext(byPoint, mounts[..n], mounts[n]);
        if mounts[n].mountPoint !in byPoint {
          byPoint := byPoint[mounts[n].mountPoint := mounts[n]];
        }
      }
      assert mounts[..|mounts|] == mounts;
      this.mountByPoint := byPoint;
      this.mounts := mounts;
    }

    /** On canonical paths the indexed lookup finds the mount that the linear search finds. */
    method LongestPrefix(path: Bytes) returns (best: Option<Mount>)
      requires Valid() && Canonical(path)
      requires forall i :: 0 <= i < |mounts| ==> Canonical(mounts[i].mountPoint)
      ensures best == FindMount(path, mounts)
    {
      var current := Some(path);
      while current.Some?
        invariant current.Some? ==> current.value == path || IsBelow(path, current.value)
        invariant forall p :: p in mountByPoint && (p == path || IsBelow(path, p)) ==>
                    current.Some? && (p == current.value || IsBelow(current.value, p))
        decreases current.Some?, if current.Some? then |current.value| else 0
      {
        if current.value in mountByPoint {
          FirstOnWalkIsBest(path, mountByPoint, mounts, current.value);
          return Some(mountByPoint[current.value]);
        }
        if current.value != path && ParentOf(current.value).Some? {
          BelowIsTransitive(path, current.value, ParentOf(current.value).value);
        }
        current := ParentOf(current.value);
      }
      NothingOnWalk(path, mountByPoint, mounts);
      return None;
    }
  }

  ghost predicate Indexes(byPoint: map<Bytes, Mount>, mounts: seq<Mount>) {
    (forall i :: 0 <= i < |mounts| ==> mounts[i].mountPoint in byPoint) &&
    (forall p :: p in byPoint ==> exists i :: IsFirstAt(mounts, p, i) && byPoint[p] == mounts[i])
  }

  predicate IsFirstAt(mounts: seq<Mount>, point: Bytes, i: int) {
    0 <= i < |mounts| && mounts[i].mountPoint == point &&
    forall j :: 0 <= j < i ==> mounts[j].mountPoint != point
  }

  lemma IndexNext(byPoint: map<Bytes, Mount>, mounts: seq<Mount>, m: Mount)
    requires Indexes(byPoint, mounts)
    ensures Indexes(if m.mountPoint in byPoint then byPoint else byPoint[m.mountPoint := m], mounts + [m])
  {
    var after := if m.mountPoint in byPoint then byPoint else byPoint[m.mountPoint := m];
    forall p | p in after
      ensures exists i :: IsFirstAt(mounts + [m], p, i) && after[p] == (mounts + [m])[i]
    {
      if p in byPoint {
        var i :| IsFirstAt(mounts, p, i) && byPoint[p] == mounts[i];
        assert IsFirstAt(mounts + [m], p, i);
      } else {
        assert IsFirstAt(mounts + [m], p, |mounts|);
      }
    }
  }

  lemma FirstOnWalkIsBest(path: Bytes, byPoint: map<Bytes, Mount>, mounts: seq<Mount>, point: Bytes)
    requires Indexes(byPoint, mounts) && Canonical(path) && point in byPoint
    requires forall i :: 0 <= i < |mounts| ==> Canonical(mounts[i].mountPoint)
    requires point == path || IsBelow(path, point)
    requires forall p :: p in byPoint && (p == path || IsBelow(path, p)) ==> p == point || IsBelow(point, p)
    ensures FindMount(path, mounts) == Some(byPoint[point])
  {
    var i :| IsFirstAt(mounts, point, i) && byPoint[point] == mounts[i];
    forall j | 0 <= j < |mounts|
      ensures Score(path, mounts[j]) < |point| || (Score(path, mounts[j]) == |point| && i <= j)
    {
      ScoreOnWalk(path, mounts[j]);
      var p := mounts[j].mountPoint;
      assert p in byPoint;
      if p == point {
        assert i <= j;
      }
    }
    ScoreOnWalk(path, mounts[i]);
    assert IsBestAt(path, mounts, i);
    FindMountIsBest(path, mounts);
    BestMountIsUnique(path, mounts, FindMount(path, mounts), Some(mounts[i]));
  }

  /** On canonical paths a mount counts exactly when its mount point is on the walk. */
  lemma ScoreOnWalk(path: Bytes, mount: Mount)
    requires Canonical(path) && Canonical(mount.mountPoint)
    ensures Score(path, mount)
            == if mount.mountPoint == path || IsBelow(path, mount.mountPoint) then |mount.mountPoint| else -1
  {
    CanonicalIsNormal(path);
    CanonicalIsNormal(mount.mountPoint);
    MatchIsOnWalk(path, mount.mountPoint);
  }

  lemma NothingOnWalk(path: Bytes, byPoint: map<Bytes, Mount>, mounts: seq<Mount>)
    requires Indexes(byPoint, mounts) && Canonical(path)
    requires forall i :: 0 <= i < |mounts| ==> Canonical(mounts[i].mountPoint)
    requires forall p :: p in byPoint ==> !(p == path || IsBelow(path, p))
    ensures FindMount(path, mounts) == None
  {
    forall j | 0 <= j < |mounts|
      ensures Score(path, mounts[j]) < 0
    {
      ScoreOnWalk(path, mounts[j]);
    }
    FindMountIsBest(path, mounts);
    BestMountIsUnique(path, mounts, FindMount(path, mounts), None);
  }

  // ----- which mounts are entered

  const DEFAULT_SKIPPED_FILESYSTEMS: set<string> := {
    "proc", "sysfs", "devtmpfs", "devpts", "tmpfs", "cgroup2", "pstore", "securityfs", "debugfs", "tracefs",
    "configfs", "fusectl", "nsfs"
  }

  datatype MountPolicy = MountPolicy(
    skippedFilesystems: set<string>,
    includedFilesystems: set<string>,
    skipOverlay: bool,
    skipNamespace: bool,
    oneFilesystem: bool)

  datatype Decision = Enter | Skip(reason: SkipReason, filesystemType: Option<string>)

  predicate IsDefaultVirtual(filesystemType: Option<string>) {
    filesystemType.Some? && filesystemType.value in DEFAULT_SKIPPED_FILESYSTEMS
  }

  function ClassifyMount(mount: Option<Mount>, policy: MountPolicy): Decision {
    if mount.None? then Enter
    else
      var t := mount.value.filesystemType;
      if t in policy.includedFilesystems then Enter
      else if policy.skipOverlay && t == "overlay" then Skip(OverlayMount, Some(t))
      else if policy.skipNamespace && t == "nsfs" then Skip(NamespaceMount, Some(t))
      else if t in DEFAULT_SKIPPED_FILESYSTEMS || t in policy.skippedFilesystems then
        Skip(FilesystemSkipped(t), Some(t))
      else Enter
  }

  predicate IsSkippedOverlay(policy: MountPolicy, filesystemType: string) {
    policy.skipOverlay && filesystemType == "overlay"
  }

  /** The types of file systems that a policy scans. Namespace mounts are among the default types, so
      their own switch does not appear: it only changes the reason that is given. */
  predicate Admits(policy: MountPolicy, filesystemType: string) {
    filesystemType in policy.includedFilesystems ||
    (filesystemType !in DEFAULT_SKIPPED_FILESYSTEMS && filesystemType !in policy.skippedFilesystems &&
     !IsSkippedOverlay(policy, filesystemType))
  }

  /** The one reason that is given for a mount of a type that is not scanned. */
  predicate IsReasonToSkip(policy: MountPolicy, filesystemType: string, reason: SkipReason) {
    match reason
    case OverlayMount => IsSkippedOverlay(policy, filesystemType)
    case NamespaceMount => policy.skipNamespace && filesystemType == "nsfs"
    case FilesystemSkipped(t) =>
      t == filesystemType && !IsSkippedOverlay(policy, t) && !(policy.skipNamespace && t == "nsfs")
    case _ => false
  }

  lemma {:induction false} ClassifiedAsAdmitted(mount: Mount, policy: MountPolicy)
    ensures
      var decision := ClassifyMount(Some(mount), policy);
      (decision.Enter? <==> Admits(policy, mount.filesystemType)) &&
      (decision.Skip? ==> IsReasonToSkip(policy, mount.filesystemType, decision.reason))
  {
    assert "nsfs" in DEFAULT_SKIPPED_FILESYSTEMS;
  }
}
