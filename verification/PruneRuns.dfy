/** A retention run, as far as it was committed, is a run of the store. */
module PruneRuns {
  import opened Models
  import opened Tables
  import opened Normalization
  import opened StoreRuns
  import opened Pruning

  /** What a retention run has committed when it stops. */
  function Commits(retained: set<SnapshotId>, deleted: set<SnapshotId>, collected: bool): seq<Op> {
    [Rebase(retained)] + ([Delete(deleted)] + if collected then [CollectPaths] + [] else [])
  }

  /** Deletion after the rebase is always enabled, so everything proved of runs holds for retention
      that stops anywhere. */
  lemma PruneIsARun(t: Tables, retained: set<SnapshotId>, deleted: set<SnapshotId>, collected: bool)
    requires Coherent(t) && deleted !! retained
    ensures CanRun(t, Commits(retained, deleted, collected))
    ensures Run(t, Commits(retained, deleted, collected)) == PartlyPruned(t, retained, deleted, collected)
  {
    NormalizeKeepsCoherent(t, retained);
    var moved := Apply(t, Rebase(retained));
    assert Enabled(moved, Delete(deleted));
    var rows := Apply(moved, Delete(deleted));
    if collected {
      RunCons(rows, CollectPaths, []);
      RunCons(moved, Delete(deleted), [CollectPaths] + []);
      RunCons(t, Rebase(retained), [Delete(deleted)] + ([CollectPaths] + []));
    } else {
      RunCons(moved, Delete(deleted), []);
      RunCons(t, Rebase(retained), [Delete(deleted)] + []);
    }
  }
}
