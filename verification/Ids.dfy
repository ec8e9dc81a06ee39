/** Finite sets of integer ids: the next row id SQLite hands out, and the nearest
    member below or above a given id. */
module Ids {
  import opened Models

  lemma NonEmpty(s: set<int>)
    requires s != {}
    ensures exists m :: m in s
  {
    if forall m :: m !in s {
      assert false;
    }
  }

  lemma {:induction false} HasMax(s: set<int>)
    requires s != {}
    ensures exists m :: m in s && forall k :: k in s ==> k <= m
    decreases |s|
  {
    NonEmpty(s);
    var m :| m in s;
    var rest := s - {m};
    assert forall k :: k in s ==> k == m || k in rest;
    if rest != {} {
      HasMax(rest);
      var n :| n in rest && forall k :: k in rest ==> k <= n;
      var top := if m < n then n else m;
      assert top in s && forall k :: k in s ==> k <= top;
    } else {
      assert m in s && forall k :: k in s ==> k <= m;
    }
  }

  function MaxOf(s: set<int>): (m: int)
    requires s != {}
    ensures m in s && forall k :: k in s ==> k <= m
  {
    HasMax(s);
    var m :| m in s && forall k :: k in s ==> k <= m;
    m
  }

  /** An INTEGER PRIMARY KEY without AUTOINCREMENT takes one more than the largest id in
      use, so the id of a deleted last row is handed out again. */
  function NextId(used: set<int>): (id: int)
    ensures id !in used
    ensures forall k :: k in used ==> k < id
  {
    if used == {} then 1 else MaxOf(used) + 1
  }

  /** The largest member at or below x. */
  function Floor(s: set<int>, x: int): (f: NullableId)
    ensures f.Null? ==> forall r :: r in s ==> r > x
    ensures f.Id? ==> f.id in s && f.id <= x && forall r :: r in s && r <= x ==> r <= f.id
  {
    var below := set r | r in s && r <= x;
    if below == {} then
      assert forall r :: r in s && r <= x ==> r in below;
      Null
    else
      assert forall r :: r in s && r <= x ==> r in below;
      Id(MaxOf(below))
  }

  function LeastOf(s: set<int>): (m: int)
    requires s != {}
    ensures m in s && forall k :: k in s ==> m <= k
  {
    NonEmpty(s);
    var x :| x in s;
    var mirrored := set k | k in s :: -k;
    assert -x in mirrored;
    assert forall k :: k in s ==> -k in mirrored;
    -MaxOf(mirrored)
  }

  /** The smallest member at or above x: SELECT MIN(id) ... WHERE id >= x. */
  function Ceil(s: set<int>, x: int): (c: NullableId)
    ensures c.Null? ==> forall r :: r in s ==> r < x
    ensures c.Id? ==> c.id in s && x <= c.id && forall r :: r in s && x <= r ==> c.id <= r
  {
    var above := set r | r in s && x <= r;
    if above == {} then
      assert forall r :: r in s && x <= r ==> r in above;
      Null
    else
      assert forall r :: r in s && x <= r ==> r in above;
      Id(LeastOf(above))
  }

  lemma CeilIsLeast(s: set<int>, x: int, c: int)
    requires c in s && x <= c && forall r :: r in s && x <= r ==> c <= r
    ensures Ceil(s, x) == Id(c)
  {
  }

  /** Rounding up to a set and then to a subset of it is rounding up to the subset. */
  lemma CeilCompose(wide: set<int>, narrow: set<int>, x: int)
    requires narrow <= wide
    ensures Ceil(narrow, x) == (match Ceil(wide, x) case Null => Null case Id(c) => Ceil(narrow, c))
  {
  }

  /** The n lowest members. */
  function Lowest(s: set<int>, n: nat): (low: set<int>)
    ensures low <= s && |low| == if n < |s| then n else |s|
    ensures forall a, b :: a in low && b in s - low ==> a < b
  {
    if n == 0 then {}
    else
      var before := Lowest(s, n - 1);
      if before == s then s
      else
        ProperIsSmaller(before, s);
        var next := LeastOf(s - before);
        assert s - before == {next} + (s - (before + {next}));
        before + {next}
  }

  lemma ProperIsSmaller(a: set<int>, b: set<int>)
    requires a <= b && a != b
    ensures |a| < |b| && b - a != {}
  {
    assert b == a + (b - a);
  }

  lemma NextLowest(s: set<int>, n: nat)
    requires n <= |s| && s - Lowest(s, n) != {}
    ensures
      var left := s - Lowest(s, n);
      n < |s| && Lowest(s, n + 1) == Lowest(s, n) + {LeastOf(left)} && left - {LeastOf(left)} == s - Lowest(s, n + 1)
  {
    ProperIsSmaller(Lowest(s, n), s);
  }
}
