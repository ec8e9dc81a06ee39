/** Byte paths: the parent walk used by the index lookups and the prefix test that
    says what an ancestor is. */
module Paths {
  import opened Models

  const SLASH: Byte := 0x2f

  const ROOT: Bytes := [SLASH]

  /** Drops every trailing slash. */
  function StripRight(path: Bytes): (stripped: Bytes)
    ensures |stripped| <= |path|
  {
    if path != [] && path[|path| - 1] == SLASH then StripRight(path[..|path| - 1]) else path
  }

  /** What is dropped are all slashes at the end, and nothing else. */
  lemma {:induction false} StripRightMeans(path: Bytes)
    ensures StripRight(path) == path[..|StripRight(path)|]
    ensures forall i :: |StripRight(path)| <= i < |path| ==> path[i] == SLASH
    ensures StripRight(path) != [] ==> StripRight(path)[|StripRight(path)| - 1] != SLASH
    decreases |path|
  {
    if path != [] && path[|path| - 1] == SLASH {
      var init := path[..|path| - 1];
      StripRightMeans(init);
      assert init[..|StripRight(init)|] == path[..|StripRight(init)|];
      forall i | |StripRight(path)| <= i < |path|
        ensures path[i] == SLASH
      {
        if i < |path| - 1 {
          assert init[i] == path[i];
        }
      }
    }
  }

  /** The index of the last slash, or -1. */
  function LastSlash(path: Bytes): (i: int)
    ensures -1 <= i < |path|
    ensures i >= 0 ==> path[i] == SLASH
    ensures forall j :: i < j < |path| ==> path[j] != SLASH
  {
    if path == [] then -1
    else if path[|path| - 1] == SLASH then |path| - 1
    else LastSlash(path[..|path| - 1])
  }

  function ParentOf(path: Bytes): (parent: Option<Bytes>)
    ensures parent.Some? ==> parent.value != [] && |parent.value| < |path|
  {
    if path == [] || path == ROOT then None
    else
      var stripped := StripRight(path);
      var i := LastSlash(stripped);
      if i < 0 then None
      else if i == 0 then Some(ROOT)
      else Some(stripped[..i])
  }

  /** Everything the parent walk visits, nearest first. */
  function Ancestors(path: Bytes): (walk: seq<Bytes>)
    ensures forall a {:trigger a in walk} :: a in walk ==> a != [] && |a| < |path|
    decreases |path|
  {
    match ParentOf(path)
    case None => []
    case Some(parent) => [parent] + Ancestors(parent)
  }

  predicate IsBelow(path: Bytes, ancestor: Bytes) {
    ancestor in Ancestors(path)
  }

  /** The textual test: equal paths are not ancestors of each other. */
  predicate IsAncestorPath(ancestor: Bytes, descendant: Bytes) {
    if ancestor == descendant then false
    else if ancestor == ROOT then ROOT <= descendant
    else ancestor + [SLASH] <= descendant
  }

  /** Absolute, with no empty component. */
  predicate Canonical(path: Bytes) {
    path == ROOT ||
    (|path| >= 2 && path[0] == SLASH && path[|path| - 1] != SLASH &&
     forall i {:trigger path[i]} :: 0 <= i < |path| - 1 && path[i] == SLASH ==> path[i + 1] != SLASH)
  }

  lemma ParentIsCanonical(path: Bytes)
    requires Canonical(path) && path != ROOT
    ensures StripRight(path) == path
    ensures LastSlash(path) >= 0
    ensures ParentOf(path).Some? && Canonical(ParentOf(path).value)
  {
  }

  /** On canonical paths the index walk visits exactly the strict ancestors that the
      prefix test accepts. */
  lemma {:induction false} WalkIsPrefixTest(path: Bytes, a: Bytes)
    requires Canonical(path) && a != []
    ensures IsBelow(path, a) <==> IsAncestorPath(a, path)
    decreases |path|
  {
    if path == ROOT {
      assert Ancestors(path) == [];
    } else {
      ParentIsCanonical(path);
      var parent := ParentOf(path).value;
      var i := LastSlash(path);
      WalkIsPrefixTest(parent, a);
      assert IsBelow(path, a) <==> a == parent || IsBelow(parent, a);
      if IsAncestorPath(a, path) && a != ROOT {
        assert path[|a|] == SLASH;
        assert |a| <= i;
        if |a| < i {
          assert path[..|a| + 1] == a + [SLASH];
          assert parent[..|a| + 1] == a + [SLASH];
        } else {
          assert a == path[..i] == parent;
        }
      }
      if a == parent && a != ROOT {
        assert path[..i] == a && path[i] == SLASH;
        assert path[..i + 1] == a + [SLASH];
      }
      if IsBelow(parent, a) && a != ROOT {
        assert parent != ROOT;
        assert parent <= path;
      }
    }
  }

  lemma {:induction false} BelowIsTransitive(path: Bytes, middle: Bytes, a: Bytes)
    requires IsBelow(path, middle) && IsBelow(middle, a)
    ensures IsBelow(path, a)
    decreases |path|
  {
    var parent := ParentOf(path).value;
    if middle != parent {
      BelowIsTransitive(parent, middle, a);
    }
  }

  /** Two ancestors of one path lie on one walk. */
  lemma {:induction false} AncestorsAreComparable(path: Bytes, a: Bytes, b: Bytes)
    requires IsBelow(path, a) && IsBelow(path, b)
    ensures a == b || IsBelow(a, b) || IsBelow(b, a)
    decreases |path|
  {
    var parent := ParentOf(path).value;
    if a != parent && b != parent {
      AncestorsAreComparable(parent, a, b);
    }
  }

  /** The path of a directory entry, as a directory listing spells it. */
  function Join(dir: Bytes, name: Bytes): Bytes {
    if dir == ROOT then ROOT + name else dir + [SLASH] + name
  }

  predicate ValidName(name: Bytes) {
    name != [] && SLASH !in name
  }

  lemma LastSlashIs(path: Bytes, i: nat)
    requires i < |path| && path[i] == SLASH
    requires forall j :: i < j < |path| ==> path[j] != SLASH
    ensures LastSlash(path) == i
  {
  }

  /** Where the last slash of an entry's path is. */
  lemma JoinSlash(dir: Bytes, name: Bytes)
    requires ValidName(name)
    ensures
      var path := Join(dir, name);
      var i := if dir == ROOT then 0 else |dir|;
      path == path[..i] + [SLASH] + name && LastSlash(path) == i && StripRight(path) == path &&
      forall j :: i < j < |path| ==> path[j] != SLASH
  {
    var path := Join(dir, name);
    var i := if dir == ROOT then 0 else |dir|;
    assert path == path[..i] + [SLASH] + name;
    forall j | i < j < |path|
      ensures path[j] != SLASH
    {
      assert path[j] == name[j - i - 1];
    }
    LastSlashIs(path, i);
  }

  /** An entry of a canonical directory is canonical, its parent is the directory,
      and its name can be read back from it. */
  lemma JoinParent(dir: Bytes, name: Bytes)
    requires Canonical(dir) && ValidName(name)
    ensures Canonical(Join(dir, name))
    ensures ParentOf(Join(dir, name)) == Some(dir)
  {
    var path := Join(dir, name);
    var i := if dir == ROOT then 0 else |dir|;
    JoinSlash(dir, name);
    forall j | 0 <= j < |path| - 1 && path[j] == SLASH
      ensures path[j + 1] != SLASH
    {
      if j < i - 1 {
        assert dir[j] == SLASH && path[j + 1] == dir[j + 1];
      }
    }
    if dir != ROOT {
      assert path[..i] == dir;
    }
  }

  lemma JoinIsInjective(dir: Bytes, name: Bytes, other: Bytes)
    requires Join(dir, name) == Join(dir, other)
    ensures name == other
  {
    var i := if dir == ROOT then 1 else |dir| + 1;
    assert name == Join(dir, name)[i..];
    assert other == Join(dir, other)[i..];
  }
}
