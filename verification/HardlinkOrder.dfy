/** The disk total of a scan does not depend on the order in which names are met. */
module HardlinkOrder {
  import opened Ordering
  import opened Walk
  import opened ScanShape
  import opened ScanTotals
  import opened HardlinkAccounting

  function FilesOf(uses: seq<Use>): seq<FileStat> {
    if uses == [] then []
    else if uses[|uses| - 1].File? then FilesOf(uses[..|uses| - 1]) + [uses[|uses| - 1].file]
    else FilesOf(uses[..|uses| - 1])
  }

  function SingleBytes(f: FileStat): int {
    if IsHardlinked(f) then 0 else DiskBytes(f)
  }

  function SumSingles(files: seq<FileStat>): int {
    if files == [] then 0 else SumSingles(files[..|files| - 1]) + SingleBytes(files[|files| - 1])
  }

  function LinkedKeys(files: seq<FileStat>): set<Key> {
    set f | f in files && IsHardlinked(f) :: f.key
  }

  /** All names of an inode agree on its disk bytes. */
  predicate Consistent(sizes: map<Key, int>, files: seq<FileStat>) {
    forall f :: f in files && IsHardlinked(f) ==> f.key in sizes && sizes[f.key] == DiskBytes(f)
  }

  ghost function InodeSum(keys: set<Key>, sizes: map<Key, int>): int
    requires keys <= sizes.Keys
  {
    if keys == {} then 0
    else
      var k :| k in keys;
      sizes[k] + InodeSum(keys - {k}, sizes)
  }

  lemma {:induction false} InodeSumAdd(keys: set<Key>, sizes: map<Key, int>, k: Key)
    requires keys <= sizes.Keys && k in sizes && k !in keys
    ensures InodeSum(keys + {k}, sizes) == InodeSum(keys, sizes) + sizes[k]
    decreases |keys|
  {
    var more := keys + {k};
    var first :| first in more && InodeSum(more, sizes) == sizes[first] + InodeSum(more - {first}, sizes);
    if first == k {
      assert more - {k} == keys;
    } else {
      assert more - {first} == (keys - {first}) + {k};
      InodeSumAdd(keys - {first}, sizes, k);
      InodeSumAdd(keys - {first}, sizes, first);
      assert keys - {first} + {first} == keys;
    }
  }

  lemma FilesOfLast(uses: seq<Use>)
    requires uses != []
    ensures
      var init, last := uses[..|uses| - 1], uses[|uses| - 1];
      if last.NoFile? then FilesOf(uses) == FilesOf(init)
      else
        FilesOf(uses) == FilesOf(init) + [last.file] &&
        SumSingles(FilesOf(uses)) == SumSingles(FilesOf(init)) + SingleBytes(last.file) &&
        LinkedKeys(FilesOf(uses)) == LinkedKeys(FilesOf(init)) + if IsHardlinked(last.file) then {last.file.key} else {}
  {
  }

  /** Every inode counts once, whatever the order. */
  lemma {:induction false} DiskBySeen(limit: int, uses: seq<Use>, sizes: map<Key, int>)
    requires AllCountRight(limit, {}, uses) && !LimitHit(uses) && Consistent(sizes, FilesOf(uses))
    ensures SeenAfter({}, uses) == LinkedKeys(FilesOf(uses)) <= sizes.Keys
    ensures SumUses(Disk, uses) == SumSingles(FilesOf(uses)) + InodeSum(SeenAfter({}, uses), sizes)
    decreases |uses|
  {
    if uses != [] {
      var init, last := uses[..|uses| - 1], uses[|uses| - 1];
      FilesOfLast(uses);
      assert Consistent(sizes, FilesOf(init));
      DiskBySeen(limit, init, sizes);
      if last.File? {
        assert last.file in FilesOf(uses);
        if last.counting == FirstName {
          InodeSumAdd(SeenAfter({}, init), sizes, last.file.key);
        } else if last.counting == LaterName {
          assert SeenAfter({}, init) + {last.file.key} == SeenAfter({}, init);
        }
      }
    }
  }

  lemma {:induction false} SeenAreLinked(limit: int, uses: seq<Use>)
    requires AllCountRight(limit, {}, uses)
    ensures SeenAfter({}, uses) <= LinkedKeys(FilesOf(uses))
    ensures |SeenAfter({}, uses)| <= limit || SeenAfter({}, uses) == {}
    ensures !LimitHit(uses) ==> SeenAfter({}, uses) == LinkedKeys(FilesOf(uses))
    ensures LimitHit(uses) ==> |LinkedKeys(FilesOf(uses))| > limit && LinkedKeys(FilesOf(uses)) != {}
    decreases |uses|
  {
    if uses != [] {
      var init, last := uses[..|uses| - 1], uses[|uses| - 1];
      SeenAreLinked(limit, init);
      FilesOfLast(uses);
      if last.File? && last.counting == PastLimit {
        SubsetIsSmaller(SeenAfter({}, init) + {last.file.key}, LinkedKeys(FilesOf(uses)));
      } else if LimitHit(init) {
        SubsetIsSmaller(LinkedKeys(FilesOf(init)), LinkedKeys(FilesOf(uses)));
      }
    }
  }

  lemma SubsetIsSmaller(a: set<Key>, b: set<Key>)
    requires a <= b
    ensures |a| <= |b|
  {
    assert b == a + (b - a);
  }

  /** Names reach the limit of tracked inodes exactly when they have more inodes than it, in any order. */
  lemma LimitHitIff(limit: int, uses: seq<Use>)
    requires AllCountRight(limit, {}, uses)
    ensures LimitHit(uses) <==> |LinkedKeys(FilesOf(uses))| > limit && LinkedKeys(FilesOf(uses)) != {}
  {
    SeenAreLinked(limit, uses);
  }

  lemma {:induction false} SumSinglesConcat(a: seq<FileStat>, b: seq<FileStat>)
    ensures SumSingles(a + b) == SumSingles(a) + SumSingles(b)
    decreases |b|
  {
    if b == [] {
      assert a + b == a;
    } else {
      assert (a + b)[..|a + b| - 1] == a + b[..|b| - 1];
      SumSinglesConcat(a, b[..|b| - 1]);
    }
  }

  lemma SumSinglesWithout(a: seq<FileStat>, f: FileStat, b: seq<FileStat>)
    ensures SumSingles(a + [f] + b) == SumSingles(a + b) + SingleBytes(f)
  {
    SumSinglesConcat(a + [f], b);
    SumSinglesConcat(a, [f]);
    SumSinglesConcat(a, b);
    assert SumSingles([f]) == SumSingles([]) + SingleBytes(f);
  }

  lemma {:induction false} SumSinglesPermutes(a: seq<FileStat>, b: seq<FileStat>)
    requires multiset(a) == multiset(b)
    ensures SumSingles(a) == SumSingles(b)
    decreases |a|
  {
    if a == [] {
      assert |multiset(b)| == 0;
    } else {
      var init, last := a[..|a| - 1], a[|a| - 1];
      assert a == init + [last];
      assert last in multiset(b);
      var before, after := SplitAt(b, last);
      SumSinglesPermutes(init, before + after);
      SumSinglesWithout(before, last, after);
    }
  }

  /** Two trees with the same directories' bytes and the same names, in any order, have the same
      disk total at the root, when one of them, and so the other, did not reach the limit of tracked
      inodes. */
  lemma RootDiskIsOrderFree(limit: int, a: Node, b: Node, sizes: map<Key, int>)
    requires AllCountRight(limit, {}, Uses(a)) && AllCountRight(limit, {}, Uses(b))
    requires !LimitHit(Uses(a))
    requires multiset(FilesOf(Uses(a))) == multiset(FilesOf(Uses(b))) && Consistent(sizes, FilesOf(Uses(a)))
    requires SumOwn(Disk, Subtree(a)) == SumOwn(Disk, Subtree(b))
    ensures NodeTotals(a).diskBytes == NodeTotals(b).diskBytes
  {
    var fa, fb := FilesOf(Uses(a)), FilesOf(Uses(b));
    forall f
      ensures f in fa <==> f in fb
    {
      assert f in multiset(fa) <==> f in multiset(fb);
    }
    assert LinkedKeys(fa) == LinkedKeys(fb);
    LimitHitIff(limit, Uses(a));
    LimitHitIff(limit, Uses(b));
    DiskBySeen(limit, Uses(a), sizes);
    DiskBySeen(limit, Uses(b), sizes);
    SumSinglesPermutes(fa, fb);
    RowIsSumOfSubtree(Disk, a);
    RowIsSumOfSubtree(Disk, b);
  }
}
