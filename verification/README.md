# watchdirs: a verified model

watchdirs scans directory trees into snapshots, keeps the rows of complete snapshots as
delta-encoded validity intervals, prunes old snapshots, and reports what grew between two of
them. This project models that logic in Dafny and proves what it promises.

    dafny verify dfyconfig.toml

**The interval store.** `Tables` holds the four tables and the relation that every report reads
them through. `Promotion`, `Normalization` and `Operations` say what each change of the tables
does; `Connection` is the imperative form of the same changes, a connection with the tables as its
transaction sees them and as they were last committed, each method proved equal to its function.
`StoreRuns` proves that any run of committed changes reads as a plain map from snapshot ids to full
rows; ids of snapshots and of dictionary paths are reused as SQLite reuses them. `Retention` is the
selection loop, proved equal to a set that is defined without it; `RetentionLaws` says what that
set promises over time, `Pruning` and `PruneRuns` put both together, `Coalesce` counts redundant
interval rows, and `Collect` is the commit protocol of one collection with an interrupt or an
exception between any two steps.

**The scanner.** `Walk` defines, by recursion, the tree of directories that a scan visits. The
tree does not depend on the collapse policy: rows, totals, errors and evidence are folds over it.
`Places` ties every directory and item of the tree to what the file system lists. `Scanner` is the
loop with its explicit stack; `Resume`, `ScanState` and `ScanLedger` hold its invariants: what the
scan will end with from any intermediate state, what every frame holds, and what balances between
any two steps. `ScanShape`, `Collapse`, `CollapseDecision`, `Completeness`,
`ScanErrors`, `ScanTotals`, `ScanBytes`, `RowFacts`, `HardlinkAccounting`, `HardlinkOrder` and
`SiblingOrder` prove what the result means, and `ScanToStore` that the store accepts it.

**Reports.** `Dominance` defines the growth frontier as a set; `DominatedIndex`,
`SuppressedIndex`, `Frontier` and `FrontierScopes` are the two-phase algorithm, `FastFilter` the
filter of the fast report. `StorageDomains` and `DomainScan` are the totals per storage domain,
`Diff`, `FoldingDiff`, `FastDelta`, `StoredDiff` and `RootTotals` the difference of two snapshots and
the queries that must agree with it, `Relocation` the pairing of growth with shrinkage and
`RelocationSides` when its two sides stay apart, `FastReport` and `StoredRoots` what this means for
stored scans, `Mounts` the mount lookups. `Models`, `Ids`, `Paths`, `Ordering` and `Sums` are shared,
`Counterexamples` collects inputs on which a promise fails, and `ReachedInputs` shows that they can
be reached.

## Where a promise does not hold as it is written

Each case has a lemma with an input on which the promise fails and one that says exactly when it holds.

- The documentation (README.md:190) promises one complete snapshot per month beyond the daily
  window. The program keeps the latest of each whole month, and when that one lies inside the
  window, the part of the month beyond it keeps nothing: `RetentionLaws.MonthBeyondWindowCanBeEmptied`
  and `RetentionLaws.MonthBeyondWindowKeepsIff`.
- Between the commit of the moved boundaries and the deletion of what they dropped, a complete
  snapshot that is about to go can read the rows of its predecessor:
  `Counterexamples.DroppedCanReadOtherRows` and `StoreRuns.DroppedReadsCorrectlyIff`.
- A signal between the final commit and the release of the snapshot id relabels a complete snapshot
  as failed: `Collect.InterruptCanFailComplete` and `Collect.InterruptKeepsCompleteIff`.
- The encoding is minimal until snapshots are pruned. A prune can leave neighbouring interval rows
  with equal states: `Counterexamples.PruningCanLeaveRemovable` and `Coalesce.PruneLeavesRemovableIff`.
- The fast shrink query reports a directory that a collapse hides as deleted:
  `Counterexamples.HiddenCanBeCalledDeleted` and `FastDelta.FastClassificationDiffersIff`.
- The relocation pairs are meant to name a place that grew and one that shrank (README.md:35-36). The
  shrink query also returns a directory whose apparent bytes shrank while its disk bytes grew, so a
  row can be the shrink of a pair although it grew, and the growth of the same pair:
  `Counterexamples.GrownRowIsPairedWithItself` and `RelocationSides.RowsAreUsedOnceIff`.

## Model

| member | source | states |
|---|---|---|
| `Paths.WalkIsPrefixTest` | src/watchdirs/reporting/frontier.py:121-146 | On canonical paths the parent walk visits exactly the strict ancestors that the prefix test accepts. |
| `Paths.AncestorsAreComparable` | src/watchdirs/reporting/frontier.py:139-146 | Two ancestors of one path are equal or one is above the other. |
| `Paths.BelowIsTransitive` | src/watchdirs/reporting/queries.py:2230-2240 | Ancestors of ancestors are ancestors, also on paths that are not canonical. |
| `Paths.JoinParent` | src/watchdirs/collect/scanner.py:774-776 | The path of a directory entry is canonical and its parent is the directory. |
| `Tables.AtMostOneOpen` | src/watchdirs/db/migrations.py:486-496 | A root and a path have at most one open interval. |
| `Tables.OneRowPerPath` | src/watchdirs/reporting/queries.py:70-132 | A snapshot reads at most one row per path. |
| `Promotion.PromoteKeepsCoherent` | src/watchdirs/db/migrations.py:480-528 | Promotion keeps intervals disjoint, well-formed and resolvable, and removes the diagnostic rows of the promoted snapshot. |
| `Promotion.PromotedReadsItsRows` | src/watchdirs/db/migrations.py:480-528 | A promoted snapshot reads exactly the rows it had as diagnostic rows. |
| `Promotion.PromoteKeepsOtherReads` | src/watchdirs/db/migrations.py:504-527 | No other complete snapshot reads anything else after a promotion. |
| `Promotion.BoundariesAreOlder` | src/watchdirs/db/migrations.py:486-500 | When the newest snapshot of its root is promoted, every boundary of the root is below its id. |
| `Normalization.NormalizeReadsFloor` | src/watchdirs/db/retention.py:254-285 | After the boundaries move, every id of a root reads what the greatest retained complete snapshot at or before it read. |
| `Normalization.NormalizeKeepsRetained` | src/watchdirs/db/retention.py:254-285 | A retained complete snapshot reads the same rows, also when its last interval is reopened. |
| `Normalization.NormalizeNeverCollides` | src/watchdirs/db/retention.py:270-285 | Two intervals that survive never move onto the same boundaries, so no row of the table is lost to its key. |
| `Normalization.NormalizeKeepsCoherent` | src/watchdirs/db/retention.py:254-285 | Moving the boundaries keeps every invariant of the tables. |
| `Normalization.NormalizeCompose` | src/watchdirs/db/retention.py:254-285 | Normalizing for a set and then, after deletions outside it, for a smaller set equals normalizing for the smaller set alone. |
| `Operations.InsertRowsReads` | src/watchdirs/db/migrations.py:222-260 | An accepted insert adds exactly the given rows to the snapshot and changes no other snapshot. |
| `Operations.InsertRowsAccepted` | src/watchdirs/db/migrations.py:222-260 | An insert is accepted if and only if no path occurs twice, counting the rows already there. |
| `Operations.FreshInsert` | src/watchdirs/db/migrations.py:222-260 | A snapshot without rows accepts rows with distinct paths and reads exactly them. |
| `Operations.DeleteReads` | src/watchdirs/db/retention.py:288-295 | Deleting snapshots takes their diagnostic rows with them and changes no other snapshot. |
| `Operations.DeleteOrphanPathsReads` | src/watchdirs/db/retention.py:478-514 | Collecting unreferenced dictionary paths changes no snapshot. |
| `StoreRuns.StepRefines` | src/watchdirs/db/migrations.py:192-260 | Every committed change of the tables is one change of the plain map from snapshot ids to full rows. |
| `StoreRuns.RunRefines` | src/watchdirs/db/migrations.py:417-528 | Every run of create, insert, finalize, interrupt, prune commits and path collection reads as the plain map, with ids handed out again. |
| `StoreRuns.RetainedRowsNeverChange` | src/watchdirs/db/retention.py:221-285 | A complete snapshot that stays retained reads the same rows at the end of any run. |
| `StoreRuns.ScannedRowsAreKept` | src/watchdirs/db/migrations.py:480-528 | A complete snapshot reads exactly the rows that were scanned for it, however the run continues while it is retained. |
| `StoreRuns.DroppedReadsCorrectlyIff` | src/watchdirs/db/retention.py:221-244 | Between the first commit of a prune and its deletion, a dropped complete snapshot reads its own rows if and only if the retained one before it has the same. |
| `Connection.Connection.constructor` | src/watchdirs/db/migrations.py:54-84 | A connection starts with equal committed and current tables. |
| `Connection.Connection.CreateSnapshot` | src/watchdirs/db/migrations.py:192-219 | Adds a running snapshot under the next id. |
| `Connection.Connection.ResolvePathId` | src/watchdirs/db/migrations.py:263-282 | The id of a path, from the cache, the dictionary or a new row; the cache stays right. |
| `Connection.Connection.InsertDirectoryRows` | src/watchdirs/db/migrations.py:222-260 | The loop over rows equals the insert, or rolls back and fails exactly when the insert is rejected. |
| `Connection.Connection.PromoteCompleteSnapshot` | src/watchdirs/db/migrations.py:480-528 | The two loops over paths end intervals, start intervals and delete diagnostic rows as the promotion on values does. |
| `Connection.Connection.FinalizeSnapshot` | src/watchdirs/db/migrations.py:417-477 | Sets status and end, and promotes a snapshot that becomes complete. |
| `Connection.Connection.NormalizeIntervalBoundaries` | src/watchdirs/db/retention.py:254-285 | Deleting what covers nothing retained and then moving the boundaries is the normalization. |
| `Connection.Connection.PruneSnapshots` | src/watchdirs/db/retention.py:171-251 | A whole retention run: what it deletes, the tables it leaves, and every state it commits. |
| `Connection.Connection.DeleteOneByOne` | src/watchdirs/db/retention.py:234-242 | By ascending id, each deletion commits the normalized tables without the lowest ids so far. |
| `Connection.PruneCommitsKeepReads` | src/watchdirs/db/retention.py:221-251 | Every state that a retention run commits is coherent and reads all retained snapshots as before. |
| `Retention.SelectRetainedSnapshotIds` | src/watchdirs/db/retention.py:133-168 | The selection loop keeps exactly the retained set: recent, daily, monthly and evidence snapshots. |
| `Retention.SelectionState.Record` | src/watchdirs/db/retention.py:317-351 | One snapshot updates the kept ids and the representatives of its day and month. |
| `Retention.SelectionIsRetained` | src/watchdirs/db/retention.py:158-168 | Kept ids and representatives are together the retained set. |
| `RetentionLaws.IncompleteKeptIff` | src/watchdirs/db/retention.py:329-333 | A snapshot that is not complete is kept exactly while its finish, or its start when it has none, is within the hours for incomplete ones. |
| `RetentionLaws.CompleteKeptIff` | src/watchdirs/db/retention.py:334-351 | A complete snapshot is kept exactly when it finished within the hourly days, is the last of its root and UTC day in the rest of the daily window, or the last of its root and month. |
| `RetentionLaws.DailyWindowKeepsOnePerDay` | src/watchdirs/db/retention.py:317-351 | A root and a day of 86400 seconds inside the daily window keep exactly one complete snapshot, the last. |
| `RetentionLaws.OldSnapshotKeptIffLatestOfMonth` | src/watchdirs/db/retention.py:317-351 | Beyond the daily window a complete snapshot is kept if and only if it is the latest of its root and month. |
| `RetentionLaws.LatestPerRootIsKept` | src/watchdirs/db/retention.py:133-168 | The latest finished complete snapshot of a root is never pruned. |
| `RetentionLaws.EveryMonthKeepsOne` | src/watchdirs/db/retention.py:317-351 | A root and a month with a finished complete snapshot keep one. |
| `RetentionLaws.MonthBeyondWindowCanBeEmptied` | README.md:187-192 | Under windows of 3 and 90 days the part of a month beyond the daily window can keep nothing. |
| `RetentionLaws.MonthBeyondWindowKeepsIff` | README.md:187-192 | The part of a month beyond the daily window keeps a complete snapshot if and only if the month has none inside the window. |
| `RetentionLaws.KeptLaterIsKeptEarlier` | src/watchdirs/db/retention.py:133-168 | What a later run keeps, an earlier run kept too. |
| `RetentionLaws.EarlierPruneIsInvisible` | src/watchdirs/db/retention.py:133-168 | Selecting at a later time from what an earlier run kept, with newer snapshots added in between, also under ids that the earlier run freed, equals selecting from everything. |
| `RetentionLaws.SelectionFromSuperset` | src/watchdirs/db/retention.py:133-168 | Selection from any set between the retained one and all snapshots is the same. |
| `Pruning.PartlyPrunedKeepsReads` | src/watchdirs/db/retention.py:221-251 | Whatever part of a prune was committed, everything retained reads as before. |
| `Pruning.PrunedIdsAreNamed` | src/watchdirs/db/retention.py:478-514 | After a prune the dictionary holds exactly the ids that a row that is left has as path, parent or top child. |
| `Pruning.PrunedPathsAreUsed` | src/watchdirs/db/retention.py:478-514 | After a prune the dictionary's paths are exactly those in the rows of the retained snapshots. |
| `Pruning.PruneAfterPartialPrune` | src/watchdirs/db/retention.py:221-285 | A prune after one that stopped at any commit leaves the tables of the later prune alone. |
| `Pruning.PruneScheduleIsInvisible` | src/watchdirs/db/retention.py:133-285 | Pruning at one time, stopping anywhere, and again later leaves the snapshots, intervals, rows and paths of one prune at the later time. |
| `PruneRuns.PruneIsARun` | src/watchdirs/db/retention.py:221-251 | The commits of a prune are a run of the store, whatever it retains. |
| `Coalesce.RemovableIff` | scripts/estimate_interval_coalesce_savings.py:79-100 | The window query counts exactly the intervals that continue the state of the interval ending where they begin. |
| `Coalesce.CoalesceAll` | scripts/estimate_interval_coalesce_savings.py:43-100 | The estimate is the number of rows that maximal merging saves, and merging changes no reading. |
| `Coalesce.EncodingIsMinimal` | src/watchdirs/db/migrations.py:504-527 | A history of promotions alone has no removable row. |
| `Coalesce.PruneLeavesRemovableIff` | src/watchdirs/db/retention.py:254-285 | A prune leaves a removable row exactly when it drops every complete snapshot that stood between two equal states of a path. |
| `Counterexamples.PruningCanLeaveRemovable` | src/watchdirs/db/retention.py:254-285 | On coherent tables with nothing to merge, the retention of a valid policy leaves a removable row. |
| `Counterexamples.DroppedCanReadOtherRows` | src/watchdirs/db/retention.py:221-244 | On coherent tables, a complete snapshot that retention drops reads the rows of another one before its deletion. |
| `ReachedInputs.AlternatingIsReached` | src/watchdirs/db/migrations.py:417-528 | The tables of both cases are those of three collections into an empty store. |
| `Collect.CollectSingleRoot` | src/watchdirs/cli.py:1015-1100 | A collection without interrupts stores the scan or leaves a failed snapshot without rows. |
| `Collect.CollectionIsAllOrNothing` | src/watchdirs/cli.py:1015-1117 | With an interrupt or exception between any two steps, the new snapshot reads nothing or the full scan, and all others read as before. |
| `Collect.InterruptKeepsCompleteIff` | src/watchdirs/cli.py:1078-1117 | After an interrupt the snapshot is complete if and only if the signal came after its id had left the active set. |
| `Collect.InterruptCanFailComplete` | src/watchdirs/cli.py:1078-1117 | Every complete scan has a run that commits it as complete and ends with it failed and unreadable. |
| `Mounts.FindMountForPath` | src/watchdirs/collect/mounts.py:52-62 | The linear search finds the best mount. |
| `Mounts.FindMountIsBest` | src/watchdirs/collect/mounts.py:52-62 | The best mount is the first with the longest matching mount point. |
| `Mounts.NormalizedPoint` | src/watchdirs/collect/mounts.py:94-107 | Slashes at the end of a mount point do not matter. |
| `Mounts.BestMountIsUnique` | src/watchdirs/collect/mounts.py:52-62 | There is only one best mount. |
| `Mounts.MatchIsOnWalk` | src/watchdirs/collect/mounts.py:110-112 | On canonical paths a mount point matches exactly when it is on the parent walk. |
| `Mounts.MountPrefixResolver.constructor` | src/watchdirs/reporting/queries.py:2210-2218 | The index keeps the first mount of each mount point. |
| `Mounts.MountPrefixResolver.LongestPrefix` | src/watchdirs/reporting/queries.py:2220-2227 | The indexed lookup finds the same mount as the linear search. |
| `Mounts.ClassifiedAsAdmitted` | src/watchdirs/collect/classify.py:29-80 | Which types of file systems are scanned, and the one reason given for those that are not. |
| `Walk.DescendsIff` | src/watchdirs/collect/scanner.py:520-600 | A directory is entered exactly when its mount is of a type that is scanned, its device is allowed and no mount or directory being visited is repeated; otherwise the first reason that applies is given. |
| `Walk.DescendShrinks` | src/watchdirs/collect/scanner.py:586-600 | Entering a directory uses up one of finitely many inodes, so the walk ends on cyclic bind mounts. |
| `Scanner.Scanner.constructor` | src/watchdirs/collect/scanner.py:103-119 | A scan starts with the root frame and nothing collected. |
| `Scanner.Scanner.InitializeFrame` | src/watchdirs/collect/scanner.py:207-259 | Opens the top directory, or closes one that cannot be listed with an error, or ends the scan at the root. |
| `Scanner.Scanner.CloseUnreadable` | src/watchdirs/collect/scanner.py:237-259 | A directory that cannot be listed leaves an error and a plain row; at the root the scan fails. |
| `Scanner.Scanner.CloseFailed` | src/watchdirs/collect/scanner.py:237-259 | Below the root, a directory that cannot be listed leaves an error and a plain row and is merged. |
| `Scanner.Scanner.FinishFrame` | src/watchdirs/collect/scanner.py:402-412 | Closes the top directory: its row replaces the rows of its descendants when it collapses, and is merged into its parent. |
| `Scanner.Scanner.PopAndMerge` | src/watchdirs/collect/scanner.py:729-747 | Pops a frame, adds its row and adds its totals, evidence and top child to the parent. |
| `Scanner.Scanner.StoreEntry` | src/watchdirs/collect/scanner.py:262-301 | Stores what an entry that is not entered adds. |
| `Scanner.Scanner.StoreSkipped` | src/watchdirs/collect/scanner.py:345-353 | Adds the empty row of a directory that is left out. |
| `Scanner.Scanner.ProcessFrameEntry` | src/watchdirs/collect/scanner.py:262-301 | Handles the next entry as the recursive walk does. |
| `Scanner.Scanner.ProcessExcludedEntry` | src/watchdirs/collect/scanner.py:267-284 | Excluded entries leave evidence, an error if recorded, and a row if they look like directories. |
| `Scanner.Scanner.ProcessFailedEntry` | src/watchdirs/collect/scanner.py:286-295 | Entries that cannot be examined leave an error; only missing ones leave the scan complete. |
| `Scanner.Scanner.ProcessDirectoryEntry` | src/watchdirs/collect/scanner.py:304-364 | Counts the directory, applies the fan-out rule, and enters or skips it. |
| `Scanner.Scanner.EnterDirectory` | src/watchdirs/collect/scanner.py:355-364 | Pushes the frame of a directory that is entered. |
| `Scanner.Scanner.SkipDirectory` | src/watchdirs/collect/scanner.py:339-353 | A directory that is not entered leaves an empty row, except on default virtual file systems. |
| `Scanner.Scanner.ProcessFileEntry` | src/watchdirs/collect/scanner.py:367-399 | Counts a file, with its disk bytes at its first name only. |
| `Scanner.Scanner.CountFile` | src/watchdirs/collect/scanner.py:690-726 | The first name of an inode brings its disk bytes, later names count as duplicates. |
| `Scanner.Scanner.AbandonDirectory` | src/watchdirs/collect/scanner.py:385-392 | A new inode past the limit gives up the rest of the directory and the completeness of the scan. |
| `Scanner.Scanner.Step` | src/watchdirs/collect/scanner.py:191-204 | One iteration keeps the final tree, all invariants and the balance, and leaves less work. |
| `Scanner.Scanner.ScanStack` | src/watchdirs/collect/scanner.py:190-204 | The loop ends, with everything of the recursive walk collected. |
| `Scanner.PrepareScanRoot` | src/watchdirs/collect/scanner.py:126-175 | A scan starts exactly at a root that is no symlink and below none, could be examined, and, when mounts are known, is on a known one of a scanned type; otherwise the error says what is wrong. |
| `Scanner.BlameIsUnique` | src/watchdirs/collect/scanner.py:126-175 | An error fits only a root that a scan cannot start at, and one error only. |
| `Scanner.ScanRoot` | src/watchdirs/collect/scanner.py:103-123 | A scan that starts reports the rows, errors, status and hardlink count of the recursive walk; one that does not start reports why. |
| `Completeness.CompleteIff` | src/watchdirs/collect/scanner.py:415-424 | A scan fails when its root cannot be listed; otherwise it is complete exactly when every error it reports is of a path that vanished, was excluded or was not entered, and partial if not. |
| `ScanBytes.ReportedLinks` | src/watchdirs/collect/scanner.py:415-424 | The hardlink count of a scan is that of its root row, which is the last. |
| `ScanErrors.ErrorsHaveCauses` | src/watchdirs/collect/scanner.py:237-399 | The errors of a scan are exactly those that failed listings and the entries of its visited directories cause. |
| `ScanErrors.EntryLeaves` | src/watchdirs/collect/scanner.py:262-399 | An entry leaves one error at most: its exclusion, its own failure, why it is not entered, or the limit of inodes. |
| `ScanErrors.EntryLeavesRow` | src/watchdirs/collect/scanner.py:339-353 | Which entries that are not entered have an empty row, and why. |
| `ScanErrors.EntryCounts` | src/watchdirs/collect/scanner.py:304-399 | What an entry counts as, and the message it offers to its directory's row. |
| `ScanErrors.EntryEvidence` | src/watchdirs/collect/scanner.py:816-822 | The evidence of an entry has its kind, whether skipped paths are recorded or not. |
| `ScanErrors.EnteredAs` | src/watchdirs/collect/scanner.py:355-364 | A directory is entered under its path, with its own stat, on the best known mount for it or else its parent's. |
| `ScanErrors.ExcludedIff` | src/watchdirs/collect/scanner.py:750-758 | On canonical paths exactly what is at or below an exclude path is excluded. |
| `ScanErrors.NothingExcludedIsEntered` | src/watchdirs/collect/scanner.py:262-280 | Below its root a scan enters no directory at or below an exclude path. |
| `Places.PlaceOf` | src/watchdirs/collect/scanner.py:190-364 | Every directory of the visited tree comes from a walk at its place, on a way that never returns to a mount it left; one that is not entered is empty. |
| `Places.ItemAnswersEntry` | src/watchdirs/collect/scanner.py:262-301 | The items of a directory answer its entries one by one. |
| `Places.AllHandled` | src/watchdirs/collect/scanner.py:383-392 | All entries of a directory are handled unless the limit of inodes made the scan give it up. |
| `Places.EnteringNeverReturns` | src/watchdirs/collect/scanner.py:555-584 | Entering a directory never comes back to a mount that was left. |
| `CollapseDecision.RowCollapsesIff` | src/watchdirs/collect/scanner.py:304-317 | A row is collapsed exactly when its directory was listed, is not near a never path, and has a configured name, or as many directories in it as the fan-out asks for. |
| `Resume.EntryStep` | src/watchdirs/collect/scanner.py:262-301 | Handling an entry changes neither the tree the scan will end with nor anything below the top frame. |
| `Resume.DescendStep` | src/watchdirs/collect/scanner.py:355-364 | Entering a directory does not change the tree the scan will end with. |
| `Resume.CloseStep` | src/watchdirs/collect/scanner.py:402-412 | Closing a directory does not change the tree the scan will end with. |
| `ScanState.EntryKeepsInvariant` | src/watchdirs/collect/scanner.py:262-301 | After an entry every frame field is again the fold over what was handled in it. |
| `ScanState.CloseKeepsInvariant` | src/watchdirs/collect/scanner.py:402-412 | After a directory is merged its parent's fields are the folds with the finished child. |
| `ScanLedger.HandledBalances` | src/watchdirs/collect/scanner.py:262-399 | An entry's evidence counts its errors, and its link counters follow the set of seen inodes. |
| `ScanLedger.HandledKeepsBalance` | src/watchdirs/collect/scanner.py:237-399 | With skipped paths recorded, evidence over all frames counts the errors after every entry; counted names minus duplicates are the seen inodes, within the limit; no directory is on the stack twice. |
| `ScanLedger.CloseKeepsBalance` | src/watchdirs/collect/scanner.py:729-747 | The same after a directory is merged into its parent. |
| `ScanLedger.RowsSinceMark` | src/watchdirs/collect/scanner.py:402-406 | From the row mark of a frame on, the rows are exactly those of its finished strict descendants. |
| `ScanLedger.OpenKeepsBalance` | src/watchdirs/collect/scanner.py:207-236 | The same after a directory is opened. |
| `ScanShape.WalkIsShaped` | src/watchdirs/collect/scanner.py:190-412 | In the visited tree every directory is a canonical entry of its parent, one level deeper, and no two entries share a path. |
| `ScanShape.SubtreeIsPostOrder` | src/watchdirs/collect/scanner.py:402-412 | Directories are closed after everything below them, each path once. |
| `ScanShape.ParentIsVisited` | src/watchdirs/collect/scanner.py:355-364 | Every visited directory but the root is an entry of a visited parent. |
| `Collapse.CollapseIsTransparent` | src/watchdirs/collect/scanner.py:304-317 | The rows under a policy are, in order, those of the directories with no collapsed strict ancestor. |
| `Collapse.RowKeptIffUnfolded` | src/watchdirs/collect/scanner.py:402-412 | A visited directory has a row if and only if nothing above it collapsed, with the numbers of the scan without a policy. |
| `Collapse.CollapsedScanFiltersPlainScan` | src/watchdirs/collect/scanner.py:402-412 | In terms of the two results alone: the collapsed scan has exactly the plain scan's rows that are not below a row it marks as collapsed. |
| `Collapse.PoliciesAgreeOnNumbers` | src/watchdirs/collect/scanner.py:634-673 | Scans of one tree under any two policies agree on every number of shared rows. |
| `Collapse.ProtectedKeepsItsRow` | src/watchdirs/collect/scanner.py:785-813 | A visited directory above or below a never path keeps its own uncollapsed row. |
| `Collapse.FoldedBelowRow` | src/watchdirs/collect/scanner.py:402-412 | What is hidden is below a collapsed row that was written. |
| `Collapse.RowPathsAreUnique` | src/watchdirs/collect/scanner.py:402-412 | No path has two rows. |
| `Collapse.ParentRowIsKept` | src/watchdirs/collect/scanner.py:634-673 | Every row but the root's has its parent's uncollapsed row in the same scan. |
| `ScanTotals.RowIsSumOfSubtree` | src/watchdirs/collect/scanner.py:729-747 | Every column of a row is the sum over all directories and files of its subtree, each directory below counted once. |
| `ScanTotals.RowIsSumOfUses` | src/watchdirs/collect/scanner.py:367-399 | Counts of files, directories and links come from entries alone. |
| `RowFacts.TopIsFirstLargest` | src/watchdirs/collect/scanner.py:743-745 | The top child of a row is the first of its children with the most disk bytes. |
| `RowFacts.RowNamesTop` | src/watchdirs/collect/scanner.py:634-673 | A collapsed row names the first of its children with the most disk bytes, a plain row none. |
| `RowFacts.RowSaysWhy` | src/watchdirs/collect/scanner.py:634-688 | The error of a row is the directory's own, or the summary of its subtree when it is collapsed and there is evidence. |
| `RowFacts.ErrorIsFirstMessage` | src/watchdirs/collect/scanner.py:286-295 | The error of a listed directory is that of the first of its entries that left one. |
| `RowFacts.WalkIsWitnessed` | src/watchdirs/collect/scanner.py:262-399 | With skipped paths recorded, every entry's evidence counts its errors. |
| `RowFacts.EvidenceCountsErrors` | src/watchdirs/collect/scanner.py:816-822 | The evidence a directory passes on counts, kind by kind, the errors of its whole subtree. |
| `RowFacts.CollapsedRowCounts` | src/watchdirs/collect/scanner.py:652-673 | A collapsed row summarizes exactly the errors of its subtree and counts the directories it stands for. |
| `HardlinkAccounting.WalkCountsRight` | src/watchdirs/collect/scanner.py:690-726 | In walk order every name counts by whether its inode was seen before and whether the set had room. |
| `HardlinkAccounting.SeenAreNamesWithoutDuplicates` | src/watchdirs/collect/scanner.py:690-726 | Names minus duplicates are the inodes added to the set, which stays within the limit. |
| `HardlinkAccounting.RootAccounting` | README.md:72-75 | At the root: names minus duplicates are the seen inodes, and disk bytes plus duplicate bytes are the total of all names when the limit was not reached. |
| `ScanBytes.RootAddsUp` | src/watchdirs/collect/scanner.py:690-747 | Below the limit, the root counts sizes and blocks of 512 bytes of everything below it, where of the regular files with two or more links only the first name of each inode takes disk bytes. |
| `HardlinkAccounting.LimitMakesIncomplete` | src/watchdirs/collect/scanner.py:383-392 | A scan that reached the limit is not complete. |
| `HardlinkOrder.LimitHitIff` | src/watchdirs/collect/scanner.py:690-726 | Names reach the limit of tracked inodes exactly when they have more inodes than it, in any order. |
| `HardlinkOrder.RootDiskIsOrderFree` | README.md:72-75 | Below the limit the root's disk total does not depend on the order in which names are met. |
| `SiblingOrder.WalkHitsLimitIff` | src/watchdirs/collect/scanner.py:383-392 | A scan reaches the limit exactly when there are more inodes with several links below its root. |
| `SiblingOrder.RootDiskIgnoresSiblingOrder` | README.md:72-75 | Two file systems that differ only in the order of their listings agree on reaching the limit, and on the root disk total when they do not. |
| `ScanToStore.ScanRowsAreDistinct` | src/watchdirs/cli.py:1049-1052 | The rows of a scan have distinct paths, under any policy. |
| `ScanToStore.ScanIsAccepted` | src/watchdirs/cli.py:1049-1058 | A new snapshot accepts the rows of any scan and reads exactly them. |
| `ScanToStore.ScanCanBeCollected` | src/watchdirs/cli.py:1020-1078 | Create, insert and finalize of any complete scan is a run of the store. |
| `Dominance.FrontierIsAntichain` | src/watchdirs/reporting/frontier.py:8-55 | No row of the frontier is below another. |
| `Dominance.EveryRowIsComparable` | src/watchdirs/reporting/frontier.py:8-55 | Every candidate is on the frontier, above it or below it. |
| `Dominance.SurvivorIsCovered` | src/watchdirs/reporting/frontier.py:78-98 | What survives dominance is on the frontier or below a row of it. |
| `Dominance.OneSuppressor` | src/watchdirs/reporting/frontier.py:101-118 | A suppressed survivor has exactly one row of the frontier above it. |
| `DominatedIndex.DominatedAncestorIndex` | src/watchdirs/reporting/frontier.py:58-75 | The index holds exactly the dominated paths, each credited to the first row that beats it, with the credits counted. |
| `SuppressedIndex.FirstRetainedSuppressingAncestor` | src/watchdirs/reporting/frontier.py:101-118 | The first retained of the ancestors that a candidate does not explain, or none if there is none. |
| `SuppressedIndex.SuppressedDescendantIndex` | src/watchdirs/reporting/frontier.py:78-98 | Exactly the topmost survivors are retained, each counting the survivors below it. |
| `Frontier.PruneScope` | src/watchdirs/reporting/frontier.py:25-46 | One scope: the retained rows are the topmost survivors with their counts and reasons, and rows plus suppressed rows are all survivors. |
| `Frontier.ReasonMeans` | src/watchdirs/reporting/frontier.py:129-136 | The reason of a row says whether survivors are below it, and whether it is the first to beat some candidate. |
| `Frontier.SurvivorsAreConserved` | src/watchdirs/reporting/frontier.py:78-98 | Retained rows and their suppressed descendants are together the survivors. |
| `Frontier.TopsAreFrontier` | src/watchdirs/reporting/frontier.py:8-55 | The rows retained by the two phases are exactly the frontier. |
| `FrontierScopes.PruneGrowthFrontier` | src/watchdirs/reporting/frontier.py:8-55 | All scopes: the rows are exactly the frontier of the rows that grew, each once, with their counts, in the order of the report; with what they suppress they are all survivors. |
| `FrontierScopes.ReportMeans` | src/watchdirs/reporting/frontier.py:8-75 | A growth row is reported exactly when no row below took 95 percent of its growth, and rows below took as much of every growth row above it. |
| `FrontierScopes.ReportIsOrdered` | src/watchdirs/reporting/frontier.py:48-55 | The most growth comes first, then the deepest, then the first path. |
| `FrontierScopes.CandidatesAreOrdered` | src/watchdirs/reporting/frontier.py:9-24 | Candidates come with the most growth first, then the deepest, then by root, snapshots and path. |
| `FastFilter.RemoveDominatedFastAncestors` | src/watchdirs/cli.py:2003-2018 | The fast filter keeps, in order, the rows that are not positive and dominated. |
| `FastFilter.FastFilterAgrees` | src/watchdirs/cli.py:2003-2018 | On any rows, the fast filter keeps of those that grew on disk exactly the survivors among them, and keeps all others. |
| `FastFilter.FastFilterKeepsFrontierSurvivors` | src/watchdirs/cli.py:2003-2018 | When rows that grew on disk are classified so, these are the survivors of the frontier. |
| `FastReport.FastReportKeepsSurvivors` | src/watchdirs/cli.py:1908-1913 | On what the fast growth query returns of stored scans, they are. |
| `StorageDomains.NearestIndexedAncestorMatch` | src/watchdirs/reporting/queries.py:1029-1039 | The domain of the nearest directory above that has a row. |
| `StorageDomains.NearestIsNearest` | src/watchdirs/reporting/queries.py:1029-1039 | The row that is found is the nearest at or above the start. |
| `StorageDomains.DomainAccumulators.AccumulateRow` | src/watchdirs/reporting/queries.py:963-993 | A row adds to its domain and takes from the domain above, at boundaries only. |
| `StorageDomains.DomainAccumulators.AccumulateBoundaryRows` | src/watchdirs/reporting/queries.py:955-993 | In any order of the rows each domain gains the sum of its flows. |
| `StorageDomains.DomainAccumulators.AccumulateSnapshots` | src/watchdirs/reporting/queries.py:920-993 | Snapshot after snapshot, each domain gains the sum of all their flows. |
| `StorageDomains.DomainAccumulators.Report` | src/watchdirs/reporting/queries.py:1089-1115 | Totals are reported at zero when they are negative, and flagged then. |
| `StorageDomains.DomainTotalIsExclusive` | src/watchdirs/reporting/queries.py:955-993 | The flows telescope: a domain's total is the sum of what its rows hold beyond the resolved rows directly below them. |
| `StorageDomains.DomainsSumToTopmost` | src/watchdirs/reporting/queries.py:955-993 | All domains together are the topmost resolved rows. |
| `DomainScan.RowsHoldTheirChildren` | src/watchdirs/collect/scanner.py:729-747 | A scanned row holds at least what the rows directly below it hold. |
| `DomainScan.ReportOfScans` | src/watchdirs/reporting/queries.py:1089-1115 | Over the rows of any number of scans no domain total is negative, so the clamp never fires and the report is the sums. |
| `DomainScan.WalkIsNotNegative` | src/watchdirs/collect/scanner.py:207-221 | Sizes that are not negative give trees that are not. |
| `Diff.HasCurrentCollapsedAncestor` | src/watchdirs/reporting/queries.py:1909-1915 | Whether a currently collapsed directory is above a path. |
| `Diff.QueryDiffRows` | src/watchdirs/reporting/queries.py:1335-1411 | The classified rows of the full or the short form. |
| `Diff.CollapsedEitherWay` | src/watchdirs/reporting/queries.py:1357-1361 | Both ways of finding the collapsed directories of the current snapshot find the same. |
| `Diff.ShortFormDropsUnchanged` | src/watchdirs/reporting/queries.py:1602-1607 | Without unchanged rows the query returns exactly the other rows, with the same classifications. |
| `Diff.ClassificationMeans` | src/watchdirs/reporting/queries.py:1584-1592 | What each classification says about the two snapshots. |
| `Diff.ColumnsMean` | src/watchdirs/reporting/queries.py:1563-1593 | The columns of a row come from the current snapshot when it has the path, else from the previous one. |
| `FoldingDiff.FoldingIsNotChange` | src/watchdirs/reporting/queries.py:1892-1915 | Between two scans of one tree under any two policies nothing is deleted, grown or shrunk; what vanished is hidden by collapse and what appeared was hidden before. |
| `FoldingDiff.ScansAgreeOnDepths` | src/watchdirs/collect/scanner.py:355-364 | Scans of one root agree on the depth of every path. |
| `FastDelta.FastReadsSnapshotState` | src/watchdirs/reporting/queries.py:1737-1804 | The fast query reads the rows every report reads, within its depths, because complete snapshots have no diagnostic rows. |
| `FastDelta.FastQueryFiltersDiff` | src/watchdirs/reporting/queries.py:1712-1860 | Before its limit, the fast query is the full difference filtered by depth and direction. |
| `FastDelta.FastRowIff` | src/watchdirs/reporting/queries.py:1721-1733 | At depths 1 to 3, a path is in the growth rows exactly when it took disk or apparent bytes, and in the shrink rows exactly when it lost some of either. |
| `FastDelta.NothingIsMissing` | src/watchdirs/reporting/queries.py:1721-1733 | No shallow row that the full difference calls grown or shrunk is missing from the fast one. |
| `FastDelta.GrowthKeepsClassification` | src/watchdirs/reporting/queries.py:1721-1726 | Growth rows have the classification of the full difference. |
| `FastDelta.FastClassificationDiffersIff` | src/watchdirs/reporting/queries.py:1835-1843 | The classifications differ exactly on paths that are gone and below a collapsed directory. |
| `Counterexamples.FoldedIsCalledDeleted` | src/watchdirs/reporting/queries.py:1835-1843 | Of any two scans of one tree, a row that took space and is folded in the second is deleted for the fast query and hidden for the full one. |
| `Counterexamples.HiddenCanBeCalledDeleted` | src/watchdirs/reporting/queries.py:1835-1843 | There are two such scans. |
| `ReachedInputs.TreeIsWalked` | src/watchdirs/collect/scanner.py:190-412 | The trees of the cases are those that a scan of a file system visits. |
| `StoredDiff.StoredFoldingIsNotChange` | src/watchdirs/reporting/queries.py:1892-1915 | Read back from the store, two scans of one tree under any two policies differ only by what collapse hides. |
| `StoredDiff.FastTable` | src/watchdirs/reporting/queries.py:1737-1804 | What one side of the fast query reads from the tables is the snapshot within the depths. |
| `StoredDiff.StoredFastQuery` | src/watchdirs/reporting/queries.py:1712-1860 | On stored scans of one root the fast query, from what it reads itself, is the full difference filtered by depth and direction. |
| `RootTotals.MatchingRootInterval` | src/watchdirs/reporting/queries.py:423-431 | The first interval that covers the snapshot, or none. |
| `RootTotals.RootRowIsListed` | src/watchdirs/reporting/queries.py:389-413 | The filter by roots and the range of ids loses no root row of a requested snapshot. |
| `RootTotals.QueryCompleteRootTotals` | src/watchdirs/reporting/queries.py:377-420 | The totals found among the intervals are those of root rows of the reconstructed snapshots, and are missing exactly when there is none. |
| `StoredRoots.RootRowIsUnique` | src/watchdirs/reporting/queries.py:389-413 | A stored scan reads one row of depth zero, that of its root. |
| `StoredRoots.FoundIsTreeTotal` | src/watchdirs/reporting/queries.py:377-431 | What is looked up for a stored scan is the total of its whole tree. |
| `Relocation.BestMatch` | src/watchdirs/cli.py:2037-2064 | The first of the unused compatible shrink rows with the smallest gap, or none if there is none. |
| `Relocation.PairMeans` | src/watchdirs/cli.py:2037-2061 | Both changes of a pair are at least 512 MiB and differ by at most 256 MiB or, up to rounding, a tenth of the larger. |
| `Relocation.CloseIsCompatible` | src/watchdirs/cli.py:2037-2061 | Changes in one scope and under one parent that are so close can be paired. |
| `Relocation.CandidatesAreOrdered` | src/watchdirs/cli.py:2027-2036 | Growths come with the largest first, shrinks with the largest change first; then the least deep and the first path. |
| `Relocation.RelocationSuspicions` | src/watchdirs/cli.py:2021-2068 | A maximal matching: pairs are large, in one scope and parent and within the gap, and no row is twice on one side; the largest growth is served first and takes the first of the closest unused rows; no compatible pair of large rows is left unmatched. |
| `RelocationSides.ServesIsUnique` | src/watchdirs/cli.py:2037-2068 | The order of service determines the pairs. |
| `RelocationSides.ServedIsPaired` | src/watchdirs/cli.py:2037-2068 | The order of service alone makes them a maximal matching. |
| `RelocationSides.OnlyShrinksIsSound` | src/watchdirs/cli.py:2021-2068 | When the large rows among the shrinks shrank, no row is in two places of all pairs and every pair names a row that shrank. |
| `RelocationSides.RowsAreUsedOnceIff` | src/watchdirs/cli.py:2032-2035 | A list of shrinks promises this for every list of growths exactly when its large rows that have a parent shrank. |
| `RelocationSides.GrowerIsTakenTwice` | src/watchdirs/cli.py:2032-2035 | A large row that grew, among the shrinks, is the growth of one pair and the shrink of one for some list of growths. |
| `RelocationSides.SharedIsTaken` | src/watchdirs/cli.py:2037-2068 | A large row that grew and is in both lists is always taken on one side at least. |
| `Counterexamples.GrownRowIsPairedWithItself` | src/watchdirs/reporting/queries.py:1721-1733 | Both fast queries return one directory that grew on disk and shrank in apparent bytes, which is then paired with itself. |
| `FastReport.FastPairsAreSound` | src/watchdirs/cli.py:1908-1914 | On what the two fast queries return, pairs are sound unless a large row grew on disk while its apparent bytes shrank. |

## Left out

- Insertion in batches, progress output, notes, error texts as strings, mount and filesystem tables of a snapshot: bookkeeping around the same transactions.
- SQLite itself: tables are maps and sets, a transaction is a second image of them; schema upgrades, indexes, VACUUM and WAL are engine matters.
- Signal delivery: an interrupt is a step between two steps of the collection; a second signal inside the handler is not modelled.
- The tree of paths does not change during a scan. A root that is not a directory counts as one that cannot be listed.
- Scanner.Scanner: frames are values on the stack, not shared objects, so aliasing between a frame and the stack is not captured; every change is stored back.
- FrontierScopes.PruneGrowthFrontier: the dominance ratio is exactly 95/100, without float rounding; candidates have one row per path in a scope, as the difference of two snapshots has.
- Relocation.RelocationSuspicions: a tenth is rounded half to even on exact numbers; the covered ratio is only shown.
- Dates: timestamps are integers with a day bucket, and the month of a day is a parameter; parsing is not modelled.
- Visible-path and unknown-mount counters, skipped paths and snapshot lists of a domain total: counters with easy members.
- Differences scoped to a target below a collapsed directory, grouping, warnings and row order of the difference.
- Trends, pairs, path history, pressure summary, rendering, argument and configuration parsing, docker and lsof diagnostics.
