/** Sums over finite sets, in any order. */
module Sums {

  ghost function SumOver<T(!new)>(s: set<T>, f: T -> int): int {
    if s == {} then 0
    else
      var x :| x in s;
      f(x) + SumOver(s - {x}, f)
  }

  lemma {:induction false} SumAdd<T(!new)>(s: set<T>, f: T -> int, x: T)
    requires x !in s
    ensures SumOver(s + {x}, f) == SumOver(s, f) + f(x)
    decreases |s|
  {
    var more := s + {x};
    var first :| first in more && SumOver(more, f) == f(first) + SumOver(more - {first}, f);
    if first == x {
      assert more - {x} == s;
    } else {
      assert more - {first} == (s - {first}) + {x};
      SumAdd(s - {first}, f, x);
      SumAdd(s - {first}, f, first);
      assert s - {first} + {first} == s;
    }
  }

  lemma SumRemove<T(!new)>(s: set<T>, f: T -> int, x: T)
    requires x in s
    ensures SumOver(s, f) == SumOver(s - {x}, f) + f(x)
  {
    assert s - {x} + {x} == s;
    SumAdd(s - {x}, f, x);
  }

  lemma {:induction false} SumSame<T(!new)>(s: set<T>, f: T -> int, g: T -> int)
    requires forall x :: x in s ==> f(x) == g(x)
    ensures SumOver(s, f) == SumOver(s, g)
    decreases |s|
  {
    if s != {} {
      var x :| x in s;
      SumRemove(s, f, x);
      SumRemove(s, g, x);
      SumSame(s - {x}, f, g);
    }
  }

  lemma {:induction false} SumZero<T(!new)>(s: set<T>, f: T -> int)
    requires forall x :: x in s ==> f(x) == 0
    ensures SumOver(s, f) == 0
    decreases |s|
  {
    if s != {} {
      var x :| x in s;
      SumRemove(s, f, x);
      SumZero(s - {x}, f);
    }
  }

  /** Only one element counts. */
  lemma SumSingle<T(!new)>(s: set<T>, f: T -> int, k: T)
    requires k in s && forall x :: x in s && x != k ==> f(x) == 0
    ensures SumOver(s, f) == f(k)
  {
    SumRemove(s, f, k);
    SumZero(s - {k}, f);
  }

  lemma {:induction false} SumDifference<T(!new)>(s: set<T>, f: T -> int, g: T -> int, h: T -> int)
    requires forall x :: x in s ==> h(x) == f(x) - g(x)
    ensures SumOver(s, h) == SumOver(s, f) - SumOver(s, g)
    decreases |s|
  {
    if s != {} {
      var x :| x in s;
      SumRemove(s, f, x);
      SumRemove(s, g, x);
      SumRemove(s, h, x);
      SumDifference(s - {x}, f, g, h);
    }
  }

  lemma {:induction false} SumAtLeastZero<T(!new)>(s: set<T>, f: T -> int)
    requires forall x :: x in s ==> f(x) >= 0
    ensures SumOver(s, f) >= 0
    decreases |s|
  {
    if s != {} {
      var x :| x in s;
      SumRemove(s, f, x);
      SumAtLeastZero(s - {x}, f);
    }
  }

  function At<A, B>(f: (A, B) -> int, a: A): B -> int {
    b => f(a, b)
  }

  function AtSecond<A, B>(f: (A, B) -> int, b: B): A -> int {
    a => f(a, b)
  }

  ghost function RowSum<A(!new), B(!new)>(f: (A, B) -> int, bs: set<B>): A -> int {
    a => SumOver(bs, At(f, a))
  }

  ghost function ColumnSum<A(!new), B(!new)>(f: (A, B) -> int, left: set<A>): B -> int {
    b => SumOver(left, AtSecond(f, b))
  }

  /** Double sums can be taken in either order. */
  lemma {:induction false} SumSwap<A(!new), B(!new)>(left: set<A>, bs: set<B>, f: (A, B) -> int)
    ensures SumOver(left, RowSum(f, bs)) == SumOver(bs, ColumnSum(f, left))
    decreases |left|
  {
    if left == {} {
      SumZero(bs, ColumnSum(f, left));
    } else {
      var x :| x in left;
      SumRemove(left, RowSum(f, bs), x);
      SumSwap(left - {x}, bs, f);
      forall b | b in bs
        ensures ColumnSum(f, left - {x})(b) == ColumnSum(f, left)(b) - At(f, x)(b)
      {
        SumRemove(left, AtSecond(f, b), x);
      }
      SumDifference(bs, ColumnSum(f, left), At(f, x), ColumnSum(f, left - {x}));
    }
  }
}
