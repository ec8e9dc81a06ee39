/** Stable sorting by a key, as an order on rows. */
module Ordering {
  import opened Models

  /** Byte strings in the order of their bytes, a prefix before its extensions. */
  predicate BytesLess(a: Bytes, b: Bytes) {
    b != [] && (a == [] || a[0] < b[0] || (a[0] == b[0] && BytesLess(a[1..], b[1..])))
  }

  lemma {:induction false} BytesLessIsStrict(a: Bytes, b: Bytes, c: Bytes)
    ensures BytesLess(a, b) ==> !BytesLess(b, a)
    ensures BytesLess(a, b) && BytesLess(b, c) ==> BytesLess(a, c)
    decreases |b|
  {
    if a != [] && b != [] {
      BytesLessIsStrict(a[1..], b[1..], if c == [] then [] else c[1..]);
    }
  }

  /** They agree up to k, where a ends or is smaller. */
  predicate IsSmallerAt(a: Bytes, b: Bytes, k: nat) {
    k <= |a| && k < |b| && (forall i :: 0 <= i < k ==> a[i] == b[i]) && (k == |a| || a[k] < b[k])
  }

  /** A byte string comes before another when it is a proper prefix, or smaller where they first differ. */
  lemma {:induction false} BytesLessIff(a: Bytes, b: Bytes)
    ensures BytesLess(a, b) <==> exists k: nat :: IsSmallerAt(a, b, k)
    decreases |a|
  {
    if b == [] || a == [] {
      assert b != [] ==> IsSmallerAt(a, b, 0);
    } else {
      BytesLessIff(a[1..], b[1..]);
      if a[0] < b[0] {
        assert IsSmallerAt(a, b, 0);
      } else if BytesLess(a, b) {
        var k: nat :| IsSmallerAt(a[1..], b[1..], k);
        forall i | 0 <= i < k + 1
          ensures a[i] == b[i]
        {
          if i > 0 {
            assert a[1..][i - 1] == b[1..][i - 1];
          }
        }
        assert IsSmallerAt(a, b, k + 1);
      }
      if k: nat :| IsSmallerAt(a, b, k) && k > 0 {
        assert IsSmallerAt(a[1..], b[1..], k - 1);
      }
    }
  }

  ghost predicate StrictOrder<T(!new)>(less: (T, T) -> bool) {
    (forall x, y :: less(x, y) ==> !less(y, x)) &&
    (forall x, y, z :: less(x, y) && less(y, z) ==> less(x, z))
  }

  predicate SortedBy<T>(less: (T, T) -> bool, s: seq<T>) {
    forall i, j :: 0 <= i < j < |s| ==> !less(s[j], s[i])
  }

  /** Puts x after everything that is not greater. */
  function Insert<T>(less: (T, T) -> bool, x: T, s: seq<T>): (r: seq<T>)
    ensures multiset(r) == multiset(s) + multiset{x}
  {
    if s == [] then [x]
    else if less(x, s[0]) then [x] + s
    else
      assert s == [s[0]] + s[1..];
      [s[0]] + Insert(less, x, s[1..])
  }

  function Sort<T>(less: (T, T) -> bool, s: seq<T>): (r: seq<T>)
    ensures multiset(r) == multiset(s)
  {
    if s == [] then []
    else
      assert s == s[..|s| - 1] + [s[|s| - 1]];
      Insert(less, s[|s| - 1], Sort(less, s[..|s| - 1]))
  }

  lemma {:induction false} InsertIsSorted<T(!new)>(less: (T, T) -> bool, x: T, s: seq<T>)
    requires StrictOrder(less) && SortedBy(less, s)
    ensures SortedBy(less, Insert(less, x, s))
    decreases |s|
  {
    if s != [] && !less(x, s[0]) {
      var tail := s[1..];
      assert forall j :: 0 <= j < |tail| ==> tail[j] == s[j + 1];
      InsertIsSorted(less, x, tail);
      var rest := Insert(less, x, tail);
      forall j | 0 <= j < |rest|
        ensures !less(rest[j], s[0])
      {
        assert rest[j] in multiset(rest);
        if rest[j] != x {
          assert rest[j] in multiset(tail);
          var k :| 0 <= k < |tail| && tail[k] == rest[j];
          assert s[k + 1] == rest[j];
        }
      }
    }
  }

  /** The result is ordered by the key and has exactly the given elements. */
  lemma {:induction false} SortIsSorted<T(!new)>(less: (T, T) -> bool, s: seq<T>)
    requires StrictOrder(less)
    ensures SortedBy(less, Sort(less, s))
    decreases |s|
  {
    if s != [] {
      SortIsSorted(less, s[..|s| - 1]);
      InsertIsSorted(less, s[|s| - 1], Sort(less, s[..|s| - 1]));
    }
  }

  lemma SortMembers<T>(less: (T, T) -> bool, s: seq<T>, x: T)
    ensures x in Sort(less, s) <==> x in s
  {
    assert x in multiset(Sort(less, s)) <==> x in multiset(s);
  }

  /** The elements that are kept, in their order. */
  function Filter<T>(keep: T -> bool, s: seq<T>): seq<T> {
    if s == [] then []
    else if keep(s[|s| - 1]) then Filter(keep, s[..|s| - 1]) + [s[|s| - 1]]
    else Filter(keep, s[..|s| - 1])
  }

  lemma {:induction false} FilterMember<T>(keep: T -> bool, s: seq<T>, x: T)
    ensures x in Filter(keep, s) <==> x in s && keep(x)
    decreases |s|
  {
    if s != [] {
      FilterMember(keep, s[..|s| - 1], x);
      assert s == s[..|s| - 1] + [s[|s| - 1]];
    }
  }

  /** Where a kept element stands. */
  function Source<T>(keep: T -> bool, s: seq<T>, i: nat): nat
    requires i < |Filter(keep, s)|
  {
    var last := |s| - 1;
    if i < |Filter(keep, s[..last])| then Source(keep, s[..last], i) else last
  }

  lemma {:induction false} SourceIs<T>(keep: T -> bool, s: seq<T>, i: nat)
    requires i < |Filter(keep, s)|
    ensures Source(keep, s, i) < |s| && s[Source(keep, s, i)] == Filter(keep, s)[i]
    decreases |s|
  {
    var last := |s| - 1;
    if i < |Filter(keep, s[..last])| {
      SourceIs(keep, s[..last], i);
    }
  }

  lemma {:induction false} SourcesIncrease<T>(keep: T -> bool, s: seq<T>, i: nat, j: nat)
    requires i < j < |Filter(keep, s)|
    ensures Source(keep, s, i) < Source(keep, s, j)
    decreases |s|
  {
    var last := |s| - 1;
    if j < |Filter(keep, s[..last])| {
      SourcesIncrease(keep, s[..last], i, j);
    } else {
      SourceIs(keep, s[..last], i);
    }
  }

  lemma {:induction false} TwiceInMultiset<T>(s: seq<T>, i: nat, j: nat)
    requires i < j < |s| && s[i] == s[j]
    ensures multiset(s)[s[i]] >= 2
    decreases |s|
  {
    var last := |s| - 1;
    assert s == s[..last] + [s[last]];
    if j < last {
      TwiceInMultiset(s[..last], i, j);
    } else {
      assert s[i] in multiset(s[..last]);
    }
  }

  lemma {:induction false} FilterAll<T>(keep: T -> bool, s: seq<T>)
    requires forall i :: 0 <= i < |s| ==> keep(s[i])
    ensures Filter(keep, s) == s
    decreases |s|
  {
    if s != [] {
      FilterAll(keep, s[..|s| - 1]);
      assert s == s[..|s| - 1] + [s[|s| - 1]];
    }
  }

  lemma SortSingle<T>(less: (T, T) -> bool, keep: T -> bool, x: T)
    requires keep(x)
    ensures Sort(less, Filter(keep, [x])) == [x]
  {
    var s := [x];
    FilterAll(keep, s);
    assert s[..|s| - 1] == [];
    assert Sort(less, s) == Insert(less, x, []);
  }

  /** An element with what is before and after it. */
  lemma SplitAt<T>(s: seq<T>, x: T) returns (before: seq<T>, after: seq<T>)
    requires x in s
    ensures s == before + [x] + after && multiset(before + after) == multiset(s) - multiset{x}
  {
    var i :| 0 <= i < |s| && s[i] == x;
    before, after := s[..i], s[i + 1..];
    assert s == before + [x] + after;
  }
}
