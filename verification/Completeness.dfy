/** When a scan is complete, in terms of the errors that it reports. */
module Completeness {
  import opened Models
  import opened Walk
  import opened ScanShape
  import opened Places
  import opened Scanner

  /** A path that vanished, was excluded or was not entered leaves a scan complete. */
  predicate IsHarmless(kind: Kind) {
    kind == MissingPath || kind == Excluded || kind == MountSkipped
  }

  /** What the operating system says when a path cannot be examined or listed. */
  predicate IsSystemKind(kind: Kind) {
    kind == PermissionDenied || kind == MissingPath || kind == NotADirectory || kind == OsError
  }

  predicate AllHarmless(errors: seq<ScanError>) {
    forall i :: 0 <= i < |errors| ==> IsHarmless(errors[i].kind)
  }

  ghost predicate FailsAsSystem(fs: FileSystem) {
    forall path: Bytes :: ListingFailsAsSystem(fs.list(path))
  }

  predicate ListingFailsAsSystem(listing: Listing) {
    match listing
    case Unlistable(kind, _) => IsSystemKind(kind)
    case Entries(entries) =>
      forall i :: 0 <= i < |entries| && entries[i].stat.StatFailed? ==> IsSystemKind(entries[i].stat.kind)
  }

  // ----- one directory

  predicate IsCandid(effect: Effect) {
    effect.incomplete <==> !AllHarmless(effect.errors)
  }

  predicate TellsAll(m: Node) {
    (forall i :: 0 <= i < |m.items| ==> IsCandid(m.items[i].effect)) &&
    (m.fate.Unreadable? ==> IsSystemKind(m.fate.error.kind)) && (m.fate.Listed? || m.items == [])
  }

  lemma HandledIsCandid(s: Setup, chain: seq<Link>, d: Visit, e: Entry, seen: set<Key>)
    requires e.stat.StatFailed? ==> IsSystemKind(e.stat.kind)
    ensures
      var h := Handle(s, chain, d, e, seen);
      IsCandid(if h.Descend? then h.effect else h.item.effect)
  {
    var h := Handle(s, chain, d, e, seen);
    var effect := if h.Descend? then h.effect else h.item.effect;
    if effect.errors != [] {
      assert effect.errors == [effect.errors[0]];
    }
  }

  lemma PlaceTellsAll(s: Setup, fs: FileSystem, p: Place)
    requires fs.Valid() && FailsAsSystem(fs)
    ensures TellsAll(NodeAtPlace(s, fs, p))
  {
    var m := NodeAtPlace(s, fs, p);
    assert ListingFailsAsSystem(fs.list(p.visit.path));
    if fs.list(p.visit.path).Entries? {
      assert DirectoriesIn(fs.list(p.visit.path), fs.keys);
      var entries, below := fs.list(p.visit.path).entries, p.chain + [LinkOf(p.visit)];
      forall i | 0 <= i < |m.items|
        ensures IsCandid(m.items[i].effect)
      {
        var at := ItemAnswersEntry(s, fs, below, p.visit, entries, p.seen, i);
        HandledIsCandid(s, below, p.visit, entries[i], at);
      }
    }
  }

  lemma WalkTellsAll(s: Setup, fs: FileSystem, d: Visit, m: Node)
    requires fs.Valid() && FailsAsSystem(fs) && m in Subtree(WalkDirectory(s, fs, [], d, {}).node)
    ensures TellsAll(m)
  {
    var p := PlaceOf(s, fs, [], d, {}, m);
    if !m.fate.Skipped? {
      PlaceTellsAll(s, fs, p);
    }
  }

  // ----- the whole tree

  lemma HarmlessConcat(a: seq<ScanError>, b: seq<ScanError>)
    ensures AllHarmless(a + b) <==> AllHarmless(a) && AllHarmless(b)
  {
    assert forall i :: 0 <= i < |a| ==> (a + b)[i] == a[i];
    assert forall i :: 0 <= i < |b| ==> (a + b)[|a| + i] == b[i];
  }

  lemma {:induction false} IncompleteIff(n: Node)
    requires forall m :: m in Subtree(n) ==> TellsAll(m)
    ensures NodeIncomplete(n) <==> !AllHarmless(NodeErrors(n))
    decreases n, 1, 0
  {
    assert n in Subtree(n) && TellsAll(n);
    match n.fate
    case Listed => ItemsIncompleteIff(n, n.items);
    case Unreadable(error) => assert NodeErrors(n)[0] == error;
    case Skipped(_) =>
  }

  lemma {:induction false} ItemsIncompleteIff(n: Node, items: seq<Item>)
    requires items <= n.items && forall m :: m in Subtree(n) ==> TellsAll(m)
    ensures ItemsIncomplete(items) <==> !AllHarmless(ItemsErrors(items))
    decreases n, 0, |items|
  {
    if items != [] {
      var last := |items| - 1;
      ItemsIncompleteIff(n, items[..last]);
      assert n in Subtree(n) && TellsAll(n) && items[last] == n.items[last];
      HarmlessConcat(ItemsErrors(items[..last]), ItemErrors(items[last]));
      if items[last].Child? {
        var child := items[last].node;
        forall m | m in Subtree(child)
          ensures TellsAll(m)
        {
          ChildSubtree(n.items, last, m);
        }
        IncompleteIff(child);
        HarmlessConcat(items[last].effect.errors, NodeErrors(child));
      }
    }
  }

  /** A scan fails when its root cannot be listed. Otherwise it is complete exactly when every error that
      it reports is of a path that vanished, was excluded or was not entered, and partial if not. */
  lemma CompleteIff(setup: Setup, policy: Option<CollapsePolicy>, fs: FileSystem, path: Bytes, stat: DirectoryStat)
    requires fs.Valid() && FailsAsSystem(fs)
    ensures
      var result := ResultOf(policy, VisitedTree(setup, fs, path, stat));
      (result.status == ScanFailed <==> fs.list(path).Unlistable?) &&
      (fs.list(path).Entries? ==>
        (result.status == ScanComplete <==>
          forall e :: e in result.errors ==> e.kind in {MissingPath, Excluded, MountSkipped}))
  {
    var n := VisitedTree(setup, fs, path, stat);
    var s := setup.(rootDevice := stat.key.device);
    var d := Visit(path, None, 0, stat, RootMount(setup, path));
    forall m | m in Subtree(n)
      ensures TellsAll(m)
    {
      WalkTellsAll(s, fs, d, m);
    }
    IncompleteIff(n);
    var errors := NodeErrors(n);
    assert forall e :: e in errors ==> exists i :: 0 <= i < |errors| && errors[i] == e;
    assert forall i :: 0 <= i < |errors| ==> errors[i] in errors;
  }
}
