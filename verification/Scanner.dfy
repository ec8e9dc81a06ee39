/** The scan loop with its explicit stack, proved against the recursive walk. */
module Scanner {
  import opened Models
  import opened Paths
  import opened Mounts
  import opened Walk
  import opened Resume
  import opened ScanState
  import opened ScanLedger

  // ----- rows and merging, from the fields of frames

  function DirectoryRow(f: Frame): DirectoryAggregate {
    DirectoryAggregate(f.visit.path, f.visit.parentPath, None,
                       Facts(f.visit.depth, f.totals, f.error, false, None, None, None))
  }

  function CollapsedDirectoryRow(f: Frame, reason: CollapseReason): DirectoryAggregate {
    var error := if f.evidence == multiset{} then f.error else Some(CollapsedEvidence(f.evidence));
    DirectoryAggregate(f.visit.path, f.visit.parentPath, if f.top.TopChild? then Some(f.top.path) else None,
                       Facts(f.visit.depth, f.totals, error, true, Some(reason), Some(f.totals.dirCount),
                             if f.top.TopChild? then Some(f.top.diskBytes) else None))
  }

  function SkippedDirectoryRow(path: Bytes, parent: Visit, why: RowError): DirectoryAggregate {
    DirectoryAggregate(path, Some(parent.path), None,
                       Facts(parent.depth + 1, ZERO_TOTALS, Some(why), false, None, None, None))
  }

  /** Adds a finished child row, with one directory more than it counts itself. */
  function MergeChild(parent: Frame, row: DirectoryAggregate, evidence: multiset<Kind>): Frame {
    parent.(totals := parent.totals.PlusChild(row.facts.totals),
            evidence := parent.evidence + evidence,
            top := Better(parent.top, row.path, row.facts.totals.diskBytes))
  }

  /** The top frame holds what its directory is worth, and its row replaces or follows the rows
      collected since it was opened. */
  predicate ReadyToClose(policy: Option<CollapsePolicy>, v: Scan) {
    v.stack != [] && |v.done| == |v.stack| &&
    var last := |v.stack| - 1;
    var f := v.stack[last];
    var node := NodeOf(f.visit, Listed, v.done[last]);
    0 <= f.rowStart <= |v.rows| && f.totals == NodeTotals(node) && f.evidence == NodeEvidence(node) &&
    PendingRows(policy, v.done[..last]) + NodeRows(policy, node)
    == match f.collapseReason
       case None => v.rows + [DirectoryRow(f)]
       case Some(reason) => v.rows[..f.rowStart] + [CollapsedDirectoryRow(f, reason)]
  }

  lemma FinishedRows(policy: Option<CollapsePolicy>, v: Scan)
    requires Collected(policy, v) && StackHolds(policy, v.stack, v.done) && v.stack[|v.stack| - 1].initialized
    ensures ReadyToClose(policy, v)
  {
  }

  lemma MergedRow(parent: Frame, row: DirectoryAggregate, node: Node)
    requires row.path == node.path && row.facts.totals == NodeTotals(node)
    ensures MergeChild(parent, row, NodeEvidence(node)) == Merged(parent, node)
  {
  }

  /** What an entry without a child row adds. */
  lemma PlainItem(policy: Option<CollapsePolicy>, effect: Effect)
    ensures
      var item := Plain(effect);
      ItemHardlinks(item) == UseHardlinks(effect.use) && ItemEvidence(item) == effect.evidence &&
      ItemErrors(item) == effect.errors && ItemIncomplete(item) == effect.incomplete && ItemRows(policy, item) == []
  {
  }

  lemma SkippedTotals(path: Bytes, parent: Visit, why: RowError)
    ensures
      var node := SkippedNode(path, parent, why);
      NodeTotals(node) == ZERO_TOTALS && NodeEvidence(node) == multiset{} && NodeErrors(node) == [] &&
      !NodeIncomplete(node)
  {
  }

  /** What a directory that is not entered adds: a row, and one directory. */
  lemma SkippedItem(policy: Option<CollapsePolicy>, effect: Effect, path: Bytes, parent: Visit, why: RowError)
    ensures
      var item := Child(effect, SkippedNode(path, parent, why));
      ItemHardlinks(item) == 0 && ItemEvidence(item) == effect.evidence &&
      ItemErrors(item) == effect.errors && ItemIncomplete(item) == effect.incomplete &&
      ItemRows(policy, item) == [SkippedDirectoryRow(path, parent, why)]
  {
    var node := SkippedNode(path, parent, why);
    SkippedTotals(path, parent, why);
    assert NodeRows(policy, node) == [] + [NodeRow(policy, node)];
  }

  /** The frame of a directory that counts an entry it enters or skips. */
  function Counted(policy: Option<CollapsePolicy>, f: Frame): Frame {
    f.(collapseReason := ReasonAfter(policy, f, true), directChildDirs := f.directChildDirs + 1)
  }

  predicate Advances(top: Frame, f: Frame) {
    top.initialized && 0 <= top.nextIndex < |top.entries| && f == top.(nextIndex := top.nextIndex + 1)
  }

  lemma SkippedStep(policy: Option<CollapsePolicy>, top: Frame, f: Frame, effect: Effect, path: Bytes, why: RowError)
    requires Advances(top, f) && effect.message.None?
    ensures
      var counted := if effect.isDirectory then Counted(policy, f) else f;
      FrameStep(policy, top,
                MergeChild(counted.(evidence := f.evidence + effect.evidence),
                           SkippedDirectoryRow(path, f.visit, why), multiset{}),
                Child(effect, SkippedNode(path, f.visit, why)))
  {
    SkippedItem(policy, effect, path, f.visit, why);
    SkippedTotals(path, f.visit, why);
  }

  lemma PlainStep(policy: Option<CollapsePolicy>, top: Frame, f: Frame, effect: Effect)
    requires Advances(top, f)
    ensures
      var counted := if effect.isDirectory then Counted(policy, f) else f;
      FrameStep(policy, top,
                counted.(evidence := f.evidence + effect.evidence, totals := AddUse(f.totals, effect.use),
                         error := if f.error.Some? then f.error else effect.message),
                Plain(effect))
  {
  }

  /** What a directory that cannot be listed leaves. */
  lemma UnreadableRows(policy: Option<CollapsePolicy>, v: Scan, kind: Kind, detail: string)
    requires Collected(policy, v) && StackHolds(policy, v.stack, v.done) && !v.stack[|v.stack| - 1].initialized
    ensures
      var last := |v.stack| - 1;
      var f := v.stack[last];
      var node := UnreadableNode(f.visit, kind, detail);
      var row := DirectoryRow(f.(totals := OwnTotals(f.visit.stat), error := Some(SystemError(kind, detail))));
      f.evidence == multiset{} && NodeEvidence(node) == multiset{kind} &&
      row.path == node.path && row.facts.totals == NodeTotals(node) &&
      PendingRows(policy, v.done[..last]) + NodeRows(policy, node) == v.rows + [row]
  {
  }

  /** The frame of a directory that could not be listed. */
  function FailedFrame(f: Frame, kind: Kind, detail: string): Frame {
    f.(error := Some(SystemError(kind, detail)))
  }

  lemma FailedRow(f: Frame, kind: Kind, detail: string)
    requires f.totals == OwnTotals(f.visit.stat) && f.evidence == multiset{}
    ensures
      var node, row := UnreadableNode(f.visit, kind, detail), DirectoryRow(FailedFrame(f, kind, detail));
      f.evidence + multiset{kind} == NodeEvidence(node) && row.path == node.path &&
      row.facts.totals == NodeTotals(node) &&
      DirectoryRow(FailedFrame(f, kind, detail).(evidence := multiset{kind})) == row
  {
  }

  /** The state after such a directory is closed, in terms of its row. */
  lemma ClosedUnreadable(policy: Option<CollapsePolicy>, v: Scan, kind: Kind, detail: string)
    requires Collected(policy, v) && StackHolds(policy, v.stack, v.done) && |v.stack| >= 2
    requires !v.stack[|v.stack| - 1].initialized
    ensures
      var f := v.stack[|v.stack| - 1];
      var node := UnreadableNode(f.visit, kind, detail);
      var begun := f.(totals := OwnTotals(f.visit.stat), rowStart := |v.rows|,
                       collapseReason := InitialReason(policy, f.visit.path));
      f.evidence == multiset{} &&
      AfterClose(policy, v, node) == Popped(v, v.rows + [DirectoryRow(FailedFrame(begun, kind, detail))], node)
  {
    UnreadableRows(policy, v, kind, detail);
  }

  datatype ScanStatus = ScanComplete | ScanPartial | ScanFailed

  datatype ScanResult = ScanResult(
    rows: seq<DirectoryAggregate>,
    errors: seq<ScanError>,
    status: ScanStatus,
    fatal: Option<ScanError>,
    hardlinkCount: int)

  class Scanner {
    const setup: Setup
    const policy: Option<CollapsePolicy>
    const fs: FileSystem

    var rows: seq<DirectoryAggregate>
    var errors: seq<ScanError>
    var seenInodes: set<Key>
    var stack: seq<Frame>
    var hadFailure: bool
    var hardlinkCount: int
    var fatal: Option<ScanError>
    ghost var done: Progress

    ghost function Value(): Scan
      reads this
    {
      Scan(rows, errors, seenInodes, stack, done, hadFailure, hardlinkCount)
    }

    constructor (setup: Setup, policy: Option<CollapsePolicy>, fs: FileSystem, root: Visit)
      ensures this.setup == setup && this.policy == policy && this.fs == fs
      ensures fatal.None? && Value() == Scan([], [], {}, [FreshFrame(root)], [[]], false, 0)
    {
      this.setup, this.policy, this.fs := setup, policy, fs;
      rows, errors, seenInodes, hadFailure, hardlinkCount, fatal := [], [], {}, false, 0, None;
      stack := [FreshFrame(root)];
      done := [[]];
    }

    /** Lists the top directory. One that cannot be listed is closed at once with a plain row;
        at the root that ends the scan. */
    method InitializeFrame()
      requires stack != [] && !stack[|stack| - 1].initialized && fatal.None?
      requires Collected(policy, Value()) && StackHolds(policy, stack, done)
      modifies this
      ensures
        var before := old(Value());
        var last := |before.stack| - 1;
        var d := before.stack[last].visit;
        match fs.list(d.path)
        case Entries(entries) =>
          fatal.None? &&
          Value()
          == before.(stack := before.stack[last := OpenedFrame(policy, before.stack[last], entries, |before.rows|)])
        case Unlistable(kind, detail) =>
          var node := UnreadableNode(d, kind, detail);
          if last == 0 then fatal == Some(node.fate.error) && stack == [] &&
                            errors == before.errors + [node.fate.error] &&
                            rows == before.rows && hardlinkCount == before.hardlinkCount
          else fatal.None? && Value() == AfterClose(policy, before, node)
    {
      var last := |stack| - 1;
      var frame := stack[last];
      var path := frame.visit.path;
      frame := frame.(totals := OwnTotals(frame.visit.stat), rowStart := |rows|,
                      collapseReason := InitialReason(policy, path));
      match fs.list(path) {
        case Entries(entries) =>
          frame := frame.(entries := entries, initialized := true);
          stack := stack[last := frame];
        case Unlistable(kind, detail) =>
          CloseUnreadable(frame, kind, detail);
      }
    }

    /** Closes a directory that cannot be listed with a plain row, or gives up at the root. */
    method CloseUnreadable(frame: Frame, kind: Kind, detail: string)
      requires stack != [] && !stack[|stack| - 1].initialized && fatal.None?
      requires Collected(policy, Value()) && StackHolds(policy, stack, done)
      requires
        var top := stack[|stack| - 1];
        frame == top.(totals := OwnTotals(top.visit.stat), rowStart := |rows|,
                      collapseReason := InitialReason(policy, top.visit.path))
      modifies this
      ensures
        var before := old(Value());
        var last := |before.stack| - 1;
        var node := UnreadableNode(frame.visit, kind, detail);
        if last == 0 then fatal == Some(node.fate.error) && stack == [] &&
                          errors == before.errors + [node.fate.error] &&
                          rows == before.rows && hardlinkCount == before.hardlinkCount
        else fatal.None? && Value() == AfterClose(policy, before, node)
    {
      if frame.visit.depth == 0 {
        var error := ScanError(frame.visit.path, kind, SystemError(kind, detail));
        errors := errors + [error];
        fatal := Some(error);
        stack := [];
      } else {
        ClosedUnreadable(policy, Value(), kind, detail);
        CloseFailed(frame, kind, detail);
      }
    }

    /** A directory below the root that cannot be listed leaves an error and a plain row. */
    method CloseFailed(frame: Frame, kind: Kind, detail: string)
      requires |stack| == |done| && |stack| >= 2
      requires frame.totals == OwnTotals(frame.visit.stat) && frame.evidence == multiset{}
      modifies this
      ensures fatal == old(fatal)
      ensures
        var node := UnreadableNode(frame.visit, kind, detail);
        Value() == Popped(old(Value()), old(rows) + [DirectoryRow(FailedFrame(frame, kind, detail))], node)
    {
      var error := ScanError(frame.visit.path, kind, SystemError(kind, detail));
      errors := errors + [error];
      var f := frame.(evidence := frame.evidence + multiset{kind}, error := Some(error.message));
      FailedRow(frame, kind, detail);
      PopAndMerge(DirectoryRow(f), f.evidence, UnreadableNode(f.visit, kind, detail));
      if kind != MissingPath {
        hadFailure := true;
      }
    }

    /** Closes the top directory. A collapsed one first drops every row collected since it
        was opened, which are the rows of its strict descendants. */
    method FinishFrame()
      requires ReadyToClose(policy, Value())
      modifies this
      ensures fatal == old(fatal)
      ensures
        var before := old(Value());
        var last := |before.stack| - 1;
        var node := NodeOf(before.stack[last].visit, Listed, before.done[last]);
        if last == 0 then stack == [] && rows == NodeRows(policy, node) && errors == before.errors &&
                          hadFailure == before.hadFailure && hardlinkCount == before.hardlinkCount &&
                          seenInodes == before.seen
        else Value() == AfterClose(policy, before, node)
    {
      var last := |stack| - 1;
      var frame := stack[last];
      ghost var node := NodeOf(frame.visit, Listed, done[last]);
      var row;
      if frame.collapseReason.Some? {
        rows := rows[..frame.rowStart];
        row := CollapsedDirectoryRow(frame, frame.collapseReason.value);
      } else {
        row := DirectoryRow(frame);
      }
      PopAndMerge(row, frame.evidence, node);
    }

    /** Pops the top frame, adds its row and, below the root, merges it into its parent. */
    method PopAndMerge(row: DirectoryAggregate, evidence: multiset<Kind>, ghost node: Node)
      requires |stack| == |done| > 0
      requires row.path == node.path && row.facts.totals == NodeTotals(node) && evidence == NodeEvidence(node)
      modifies this
      ensures rows == old(rows) + [row]
      ensures errors == old(errors) && seenInodes == old(seenInodes) && hadFailure == old(hadFailure)
      ensures hardlinkCount == old(hardlinkCount) && fatal == old(fatal)
      ensures |old(stack)| == 1 ==> stack == []
      ensures |old(stack)| > 1 ==>
                stack == PoppedStack(old(stack), node) && done == Joined(old(done), node)
    {
      stack := stack[..|stack| - 1];
      rows := rows + [row];
      if stack != [] {
        MergedRow(stack[|stack| - 1], row, node);
        stack := stack[|stack| - 1 := MergeChild(stack[|stack| - 1], row, evidence)];
        done := Joined(done, node);
      }
    }

    /** The top frame on its way through one entry. */
    ghost predicate Handling(frame: Frame, before: Scan)
      reads this
    {
      stack != [] && |done| == |stack| && Value() == before && Advances(stack[|stack| - 1], frame)
    }

    /** Stores the top frame after an entry that was not entered. */
    method StoreEntry(f: Frame, ghost before: Scan, ghost item: Item)
      requires stack != [] && |done| == |stack| && stack == before.stack && done == before.done
      requires FrameStep(policy, stack[|stack| - 1], f, item)
      requires rows == before.rows + ItemRows(policy, item) && errors == before.errors + ItemErrors(item)
      requires hadFailure == (before.hadFailure || ItemIncomplete(item))
      requires hardlinkCount == before.hardlinkCount + ItemHardlinks(item)
      modifies this
      ensures fatal == old(fatal)
      ensures MovedOn(before.stack[|before.stack| - 1], f) ==>
                EntryHandled(policy, before, Value(), Next(item, old(seenInodes)))
      ensures GaveUp(f) && old(seenInodes) == before.seen ==> EntryHandled(policy, before, Value(), Abandon(item))
    {
      stack := stack[|stack| - 1 := f];
      done := Appended(done, item);
    }

    /** Adds the empty row of a directory that is left out and merges it into the top frame. */
    method StoreSkipped(f: Frame, path: Bytes, why: RowError, ghost frame: Frame, ghost before: Scan,
                        ghost effect: Effect)
      requires stack != [] && |done| == |stack| && stack == before.stack && done == before.done && rows == before.rows
      requires Advances(stack[|stack| - 1], frame) && effect.message.None? && !effect.incomplete
      requires f
               == (if effect.isDirectory then Counted(policy, frame) else frame)
                  .(evidence := frame.evidence + effect.evidence)
      requires errors == before.errors + effect.errors
      requires hadFailure == before.hadFailure && hardlinkCount == before.hardlinkCount
      modifies this
      ensures fatal == old(fatal)
      ensures EntryHandled(policy, before, Value(),
                           Next(Child(effect, SkippedNode(path, frame.visit, why)), old(seenInodes)))
    {
      var row := SkippedDirectoryRow(path, f.visit, why);
      rows := rows + [row];
      SkippedItem(policy, effect, path, f.visit, why);
      SkippedStep(policy, stack[|stack| - 1], frame, effect, path, why);
      StoreEntry(MergeChild(f, row, multiset{}), before, Child(effect, SkippedNode(path, f.visit, why)));
    }

    /** Handles the next entry of the top directory. */
    method ProcessFrameEntry()
      requires stack != [] && |done| == |stack|
      requires stack[|stack| - 1].initialized && HasEntry(stack[|stack| - 1])
      modifies this
      ensures fatal == old(fatal)
      ensures EntryHandled(policy, old(Value()), Value(), HandleTop(setup, old(Value())))
    {
      var last := |stack| - 1;
      var frame := stack[last];
      var entry := frame.entries[frame.nextIndex];
      frame := frame.(nextIndex := frame.nextIndex + 1);
      var path := Join(frame.visit.path, entry.name);
      ghost var before := Value();
      if IsExcluded(path, setup.excludePaths) {
        ProcessExcludedEntry(frame, entry, before);
        return;
      }
      match entry.stat {
        case StatFailed(kind, detail) =>
          ProcessFailedEntry(frame, path, kind, detail, before);
        case IsDirectory(stat) =>
          ProcessDirectoryEntry(frame, path, stat, before);
        case IsFile(file) =>
          ProcessFileEntry(frame, path, file, before);
      }
    }

    method ProcessExcludedEntry(frame: Frame, entry: Entry, ghost before: Scan)
      requires Handling(frame, before)
      modifies this
      ensures fatal == old(fatal)
      ensures EntryHandled(policy, before, Value(), Next(ExcludedEntry(setup, frame.visit, entry), before.seen))
    {
      var path := Join(frame.visit.path, entry.name);
      ghost var item := ExcludedEntry(setup, frame.visit, entry);
      if setup.recordSkipped {
        errors := errors + [ScanError(path, Excluded, ExcludedByConfiguration)];
      }
      var f := frame.(evidence := frame.evidence + multiset{Excluded});
      if entry.probe == LooksLikeDirectory {
        StoreSkipped(f, path, ExcludedByConfiguration, frame, before, item.effect);
      } else {
        PlainItem(policy, item.effect);
        PlainStep(policy, stack[|stack| - 1], frame, item.effect);
        StoreEntry(f, before, item);
      }
    }

    method ProcessFailedEntry(frame: Frame, path: Bytes, kind: Kind, detail: string, ghost before: Scan)
      requires Handling(frame, before)
      modifies this
      ensures fatal == old(fatal)
      ensures EntryHandled(policy, before, Value(), Next(FailedEntry(path, kind, detail), before.seen))
    {
      var message := SystemError(kind, detail);
      errors := errors + [ScanError(path, kind, message)];
      var f := frame.(evidence := frame.evidence + multiset{kind},
                      error := if frame.error.Some? then frame.error else Some(message));
      if kind != MissingPath {
        hadFailure := true;
      }
      ghost var item := FailedEntry(path, kind, detail);
      PlainItem(policy, item.effect);
      PlainStep(policy, stack[|stack| - 1], frame, item.effect);
      StoreEntry(f, before, item);
    }

    method ProcessDirectoryEntry(frame: Frame, path: Bytes, stat: DirectoryStat, ghost before: Scan)
      requires Handling(frame, before)
      modifies this
      ensures fatal == old(fatal)
      ensures EntryHandled(policy, before, Value(),
                           DirectoryEntry(setup, ChainOf(before.stack), frame.visit, path, stat, before.seen))
    {
      var f := Counted(policy, frame);
      var mount: Option<Mount> := None;
      if setup.mounts != [] {
        mount := FindMountForPath(path, setup.mounts);
      }
      var decision := ShouldDescend(setup, ChainOf(stack), frame.visit.mount, mount, stat);
      ghost var h := DirectoryEntry(setup, ChainOf(stack), frame.visit, path, stat, before.seen);
      match decision {
        case Enter =>
          var visit := Visit(path, Some(frame.visit.path), frame.visit.depth + 1, stat,
                             if mount.Some? then mount else frame.visit.mount);
          assert h == Descend(DESCENDED, visit);
          EnterDirectory(f, visit, frame, before);
        case Skip(reason, filesystemType) =>
          assert h == Next(SkippedEntry(setup, frame.visit, path, reason, filesystemType), before.seen);
          SkipDirectory(frame, f, path, reason, filesystemType, before);
      }
    }

    method EnterDirectory(f: Frame, visit: Visit, ghost frame: Frame, ghost before: Scan)
      requires Handling(frame, before) && f == Counted(policy, frame)
      modifies this
      ensures fatal == old(fatal)
      ensures EntryHandled(policy, before, Value(), Descend(DESCENDED, visit))
    {
      PlainStep(policy, stack[|stack| - 1], frame, DESCENDED);
      stack := stack[|stack| - 1 := f] + [FreshFrame(visit)];
      done := done + [[]];
    }

    /** Leaves a directory out: no row for a default virtual file system, else an empty one. */
    method SkipDirectory(frame: Frame, counted: Frame, path: Bytes, reason: SkipReason, filesystemType: Option<string>,
                         ghost before: Scan)
      requires Handling(frame, before) && counted == Counted(policy, frame)
      modifies this
      ensures fatal == old(fatal)
      ensures EntryHandled(policy, before, Value(),
                           Next(SkippedEntry(setup, frame.visit, path, reason, filesystemType), before.seen))
    {
      var f := counted.(evidence := counted.evidence + multiset{MountSkipped});
      ghost var item := SkippedEntry(setup, frame.visit, path, reason, filesystemType);
      if setup.recordSkipped {
        errors := errors + [ScanError(path, MountSkipped, NotEntered(reason))];
      }
      if IsDefaultVirtual(filesystemType) {
        PlainItem(policy, item.effect);
        PlainStep(policy, stack[|stack| - 1], frame, item.effect);
        StoreEntry(f, before, item);
      } else {
        StoreSkipped(f, path, NotEntered(reason), frame, before, item.effect);
      }
    }

    /** Counts a file. */
    method ProcessFileEntry(frame: Frame, path: Bytes, file: FileStat, ghost before: Scan)
      requires Handling(frame, before)
      modifies this
      ensures fatal == old(fatal)
      ensures EntryHandled(policy, before, Value(), FileEntry(setup, path, file, before.seen))
    {
      if IsHardlinked(file) && file.key !in seenInodes && |seenInodes| >= setup.hardlinkMaxEntries {
        AbandonDirectory(frame, path, file, before);
        return;
      }
      ghost var item := FileEntry(setup, path, file, seenInodes).item;
      PlainItem(policy, item.effect);
      PlainStep(policy, stack[|stack| - 1], frame, item.effect);
      var totals := CountFile(frame.totals, file);
      StoreEntry(frame.(totals := totals), before, item);
    }

    /** Counts a file under its name; of several names of one inode only the first brings disk bytes. */
    method CountFile(before: Totals, file: FileStat) returns (totals: Totals)
      modifies this`seenInodes, this`hardlinkCount
      ensures totals == AddFile(before, file, Count(file, old(seenInodes)))
      ensures seenInodes == if IsHardlinked(file) then old(seenInodes) + {file.key} else old(seenInodes)
      ensures hardlinkCount == old(hardlinkCount) + if IsHardlinked(file) then 1 else 0
    {
      totals := before.(fileCount := before.fileCount + 1, apparentBytes := before.apparentBytes + ApparentBytes(file));
      if IsHardlinked(file) {
        totals := WithHardlink(totals, DiskBytes(file), file.key in seenInodes);
        seenInodes := seenInodes + {file.key};
        hardlinkCount := hardlinkCount + 1;
      } else {
        totals := totals.(diskBytes := totals.diskBytes + DiskBytes(file));
      }
    }

    /** A new inode past the limit of tracked inodes gives up on the rest of the directory. */
    method AbandonDirectory(frame: Frame, path: Bytes, file: FileStat, ghost before: Scan)
      requires Handling(frame, before)
      requires IsHardlinked(file) && file.key !in seenInodes && |seenInodes| >= setup.hardlinkMaxEntries
      modifies this
      ensures fatal == old(fatal)
      ensures EntryHandled(policy, before, Value(), FileEntry(setup, path, file, before.seen))
    {
      ghost var item := FileEntry(setup, path, file, seenInodes).item;
      PlainItem(policy, item.effect);
      PlainStep(policy, stack[|stack| - 1], frame, item.effect);
      var totals := frame.totals.(fileCount := frame.totals.fileCount + 1,
                                  apparentBytes := frame.totals.apparentBytes + ApparentBytes(file));
      var message := HardlinkLimitExceeded(setup.hardlinkMaxEntries);
      errors := errors + [ScanError(path, HardlinkLimit, message)];
      hadFailure := true;
      var f := frame.(evidence := frame.evidence + multiset{HardlinkLimit}, totals := totals,
                      error := if frame.error.Some? then frame.error else Some(message), entries := [], nextIndex := 0);
      StoreEntry(f, before, item);
    }

    /** One iteration of the scan loop. */
    method Step(ghost task: Task)
      requires task.setup == setup && task.policy == policy && task.fs == fs
      requires fatal.None? && InProgress(task, Value())
      modifies this
      ensures Progressed(task, old(Value()), Value(), fatal)
    {
      var frame := stack[|stack| - 1];
      if !frame.initialized {
        InitializeFrame();
        AfterInitialize(task, old(Value()), Value(), fatal);
      } else if frame.nextIndex >= |frame.entries| {
        FinishedRows(policy, Value());
        FinishFrame();
        AfterFinish(task, old(Value()), Value());
      } else {
        ProcessFrameEntry();
        AfterHandled(task, old(Value()), Value());
      }
    }

    /** Runs to the end. Between any two steps the invariant holds, everything balances, and no
        directory is on the stack twice. */
    method ScanStack(ghost task: Task)
      requires task.setup == setup && task.policy == policy && task.fs == fs
      requires fatal.None? && InProgress(task, Value()) && Balanced(setup, Value())
      modifies this
      ensures fatal.None? ==> IsFinished(task, Value())
      ensures fatal.Some? ==> IsFatal(task, Value(), fatal.value)
    {
      while stack != [] && fatal.None?
        invariant fatal.None? && stack != [] ==> InProgress(task, Value()) && Balanced(setup, Value())
        invariant fatal.None? && stack == [] ==> IsFinished(task, Value())
        invariant fatal.Some? ==> IsFatal(task, Value(), fatal.value)
        decreases if stack != [] && fatal.None? then 1 + WorkLeft(task, Value()) else 0
      {
        Step(task);
      }
    }
  }

  /** Counts one name of a regular file with several links. */
  function WithHardlink(t: Totals, disk: int, duplicate: bool): Totals {
    var h := t.hardlinks;
    if duplicate then
      t.(hardlinks := h.(fileCount := h.fileCount + 1, duplicateCount := h.duplicateCount + 1,
                         duplicateDiskBytes := h.duplicateDiskBytes + disk))
    else
      t.(diskBytes := t.diskBytes + disk,
         hardlinks := h.(fileCount := h.fileCount + 1, firstSeenDiskBytes := h.firstSeenDiskBytes + disk))
  }

  /** The root itself could not be listed: nothing was collected. */
  predicate IsFatal(task: Task, v: Scan, error: ScanError) {
    task.goal.node.fate == Unreadable(error) && v.rows == [] && v.errors == [error] && v.hardlinkCount == 0
  }

  /** A step ends the scan or leaves less work. */
  ghost predicate Progressed(task: Task, v: Scan, w: Scan, fatal: Option<ScanError>)
    requires InProgress(task, v)
  {
    if fatal.Some? then IsFatal(task, w, fatal.value)
    else if w.stack == [] then IsFinished(task, w)
    else
      InProgress(task, w) && WorkLeft(task, w) < WorkLeft(task, v) &&
      (Balanced(task.setup, v) ==> Balanced(task.setup, w))
  }

  lemma AfterInitialize(task: Task, v: Scan, w: Scan, fatal: Option<ScanError>)
    requires InProgress(task, v) && !v.stack[|v.stack| - 1].initialized
    requires
      var last := |v.stack| - 1;
      var d := v.stack[last].visit;
      match task.fs.list(d.path)
      case Entries(entries) =>
        fatal.None? &&
        w == v.(stack := v.stack[last := OpenedFrame(task.policy, v.stack[last], entries, |v.rows|)])
      case Unlistable(kind, detail) =>
        var node := UnreadableNode(d, kind, detail);
        if last == 0 then fatal == Some(node.fate.error) && w.stack == [] && w.errors == v.errors + [node.fate.error] &&
                          w.rows == v.rows && w.hardlinkCount == v.hardlinkCount
        else fatal.None? && w == AfterClose(task.policy, v, node)
    ensures Progressed(task, v, w, fatal)
  {
    var last := |v.stack| - 1;
    var f := v.stack[last];
    match task.fs.list(f.visit.path) {
      case Entries(entries) =>
        OpenKeepsInvariant(task, v, OpenedFrame(task.policy, f, entries, |v.rows|));
        OpenIsBalanced(task, v, entries);
      case Unlistable(kind, detail) =>
        var node := UnreadableNode(f.visit, kind, detail);
        if last == 0 {
          RootUnreadable(task, v, node);
        } else {
          CloseKeepsInvariant(task, v, node);
          UnreadableIsBalanced(task, v, kind, detail);
        }
    }
  }

  lemma OpenIsBalanced(task: Task, v: Scan, entries: seq<Entry>)
    requires StackHolds(task.policy, v.stack, v.done) && !v.stack[|v.stack| - 1].initialized
    ensures
      var last := |v.stack| - 1;
      Balanced(task.setup, v) ==>
        Balanced(task.setup, v.(stack := v.stack[last := OpenedFrame(task.policy, v.stack[last], entries, |v.rows|)]))
  {
    var last := |v.stack| - 1;
    if Balanced(task.setup, v) {
      OpenKeepsBalance(task.setup, v, OpenedFrame(task.policy, v.stack[last], entries, |v.rows|));
    }
  }

  lemma UnreadableIsBalanced(task: Task, v: Scan, kind: Kind, detail: string)
    requires StackHolds(task.policy, v.stack, v.done) && |v.stack| >= 2 && !v.stack[|v.stack| - 1].initialized
    ensures
      var node := UnreadableNode(v.stack[|v.stack| - 1].visit, kind, detail);
      Balanced(task.setup, v) ==> Balanced(task.setup, AfterClose(task.policy, v, node))
  {
    var node := UnreadableNode(v.stack[|v.stack| - 1].visit, kind, detail);
    OneKind(node.fate.error);
    if Balanced(task.setup, v) {
      CloseKeepsBalance(task.setup, v, AfterClose(task.policy, v, node).rows, node);
    }
  }

  lemma ListedIsBalanced(task: Task, v: Scan)
    requires StackHolds(task.policy, v.stack, v.done) && |v.stack| >= 2 && v.stack[|v.stack| - 1].initialized
    ensures
      var last := |v.stack| - 1;
      var node := NodeOf(v.stack[last].visit, Listed, v.done[last]);
      Balanced(task.setup, v) ==> Balanced(task.setup, AfterClose(task.policy, v, node))
  {
    var last := |v.stack| - 1;
    var node := NodeOf(v.stack[last].visit, Listed, v.done[last]);
    if Balanced(task.setup, v) {
      CloseKeepsBalance(task.setup, v, AfterClose(task.policy, v, node).rows, node);
    }
  }

  lemma AfterHandled(task: Task, v: Scan, w: Scan)
    requires InProgress(task, v) && HasEntry(v.stack[|v.stack| - 1])
    requires EntryHandled(task.policy, v, w, HandleTop(task.setup, v))
    ensures Progressed(task, v, w, None)
  {
    HandledKeepsInvariant(task, v, w, HandleTop(task.setup, v));
    if Balanced(task.setup, v) {
      HandledKeepsBalance(task.setup, task.policy, v, w);
    }
  }

  lemma RootUnreadable(task: Task, v: Scan, node: Node)
    requires InProgress(task, v) && |v.stack| == 1 && !v.stack[0].initialized
    requires node.fate.Unreadable?
    requires WalkDirectory(task.setup, task.fs, [], v.stack[0].visit, v.seen).node == node
    ensures task.goal.node == node && v.rows == [] && v.errors == [] && v.hardlinkCount == 0
  {
    PendingOne(v.done);
    EmptyTop(task.policy, v.done);
  }

  lemma AfterFinish(task: Task, v: Scan, w: Scan)
    requires InProgress(task, v) && v.stack[|v.stack| - 1].initialized && !HasEntry(v.stack[|v.stack| - 1])
    requires
      var last := |v.stack| - 1;
      var node := NodeOf(v.stack[last].visit, Listed, v.done[last]);
      if last == 0 then w.stack == [] && w.rows == NodeRows(task.policy, node) && w.errors == v.errors &&
                        w.hadFailure == v.hadFailure && w.hardlinkCount == v.hardlinkCount && w.seen == v.seen
      else w == AfterClose(task.policy, v, node)
    ensures Progressed(task, v, w, None)
  {
    var last := |v.stack| - 1;
    if last == 0 {
      CloseRootFinishes(task, v, w);
    } else {
      assert v.done[last] + [] == v.done[last];
      CloseKeepsInvariant(task, v, NodeOf(v.stack[last].visit, Listed, v.done[last]));
      ListedIsBalanced(task, v);
    }
  }

  /** What a scan of a root reports, as a function of the tree it visits. */
  function ResultOf(policy: Option<CollapsePolicy>, n: Node): ScanResult {
    if n.fate.Unreadable? then FailedResult(n.fate.error)
    else ScanResult(NodeRows(policy, n), NodeErrors(n), if NodeIncomplete(n) then ScanPartial else ScanComplete, None,
                    ItemsHardlinks(n.items))
  }

  // ----- the root

  /** What looking at the configured root finds. A root that is no directory cannot be listed. */
  datatype RootProbe = RootProbe(symlinkedComponent: bool, stat: RootStat)

  datatype RootStat = RootStatFailed(detail: string) | RootIsSymlink | RootStat(stat: DirectoryStat)

  function RootMount(setup: Setup, path: Bytes): Option<Mount> {
    if setup.mounts != [] then FindMount(path, setup.mounts) else None
  }

  predicate IsRealRoot(probe: RootProbe) {
    !probe.symlinkedComponent && probe.stat.RootStat?
  }

  /** A scan starts at a root that is no symlink, lies below none and could be examined, when the
      mount it is on, if mounts are known at all, is known and of a type that is scanned. */
  ghost predicate CanStart(setup: Setup, path: Bytes, probe: RootProbe) {
    IsRealRoot(probe) &&
    (setup.mounts != [] ==>
      exists m :: IsBestMount(path, setup.mounts, Some(m)) && Admits(setup.mountPolicy, m.filesystemType))
  }

  /** The error names the root and what is wrong with it. */
  ghost predicate Blames(setup: Setup, path: Bytes, probe: RootProbe, e: ScanError) {
    e.path == path &&
    match e.kind
    case SymlinkRoot =>
      (probe.symlinkedComponent || probe.stat.RootIsSymlink?) &&
      e.message == if probe.symlinkedComponent then SymlinkedComponent else SymlinkedRoot
    case RootError =>
      !probe.symlinkedComponent && probe.stat.RootStatFailed? && e.message == RootNotExamined(probe.stat.detail)
    case MountMissing =>
      IsRealRoot(probe) && setup.mounts != [] && IsBestMount(path, setup.mounts, None) && e.message == NoMountEntry
    case MountSkipped =>
      IsRealRoot(probe) && e.message.NotEntered? &&
      exists m :: IsBestMount(path, setup.mounts, Some(m)) && !Admits(setup.mountPolicy, m.filesystemType) &&
                  IsReasonToSkip(setup.mountPolicy, m.filesystemType, e.message.reason)
    case _ => false
  }

  /** One error fits, and only when the scan cannot start. */
  lemma {:induction false} BlameIsUnique(setup: Setup, path: Bytes, probe: RootProbe, a: ScanError, b: ScanError)
    requires Blames(setup, path, probe, a)
    ensures !CanStart(setup, path, probe)
    ensures Blames(setup, path, probe, b) ==> a == b
  {
    BestMountsAgree(path, setup.mounts);
  }

  lemma BestMountsAgree(path: Bytes, mounts: seq<Mount>)
    ensures forall a, b :: IsBestMount(path, mounts, a) && IsBestMount(path, mounts, b) ==> a == b
  {
    forall a, b | IsBestMount(path, mounts, a) && IsBestMount(path, mounts, b)
      ensures a == b
    {
      BestMountIsUnique(path, mounts, a, b);
    }
  }

  function FailedResult(error: ScanError): ScanResult {
    ScanResult([], [error], ScanFailed, Some(error), 0)
  }

  /** The tree that a scan visits from a root that it can start at. */
  function VisitedTree(setup: Setup, fs: FileSystem, path: Bytes, stat: DirectoryStat): Node
    requires fs.Valid()
  {
    var root := Visit(path, None, 0, stat, RootMount(setup, path));
    WalkDirectory(setup.(rootDevice := stat.key.device), fs, [], root, {}).node
  }

  method PrepareScanRoot(setup: Setup, path: Bytes, probe: RootProbe)
    returns (problem: Option<ScanError>, mount: Option<Mount>)
    ensures problem.None? <==> CanStart(setup, path, probe)
    ensures problem.Some? ==> Blames(setup, path, probe, problem.value)
    ensures problem.None? ==> mount == RootMount(setup, path)
  {
    mount := None;
    FindMountIsBest(path, setup.mounts);
    BestMountsAgree(path, setup.mounts);
    if probe.symlinkedComponent {
      return Some(ScanError(path, SymlinkRoot, SymlinkedComponent)), None;
    }
    match probe.stat {
      case RootStatFailed(detail) => return Some(ScanError(path, RootError, RootNotExamined(detail))), None;
      case RootIsSymlink => return Some(ScanError(path, SymlinkRoot, SymlinkedRoot)), None;
      case RootStat(_) =>
    }
    if setup.mounts != [] {
      mount := FindMountForPath(path, setup.mounts);
      if mount.None? {
        return Some(ScanError(path, MountMissing, NoMountEntry)), None;
      }
    }
    if mount.Some? {
      ClassifiedAsAdmitted(mount.value, setup.mountPolicy);
      var decision := ClassifyMount(mount, setup.mountPolicy);
      if decision.Skip? {
        return Some(ScanError(path, MountSkipped, NotEntered(decision.reason))), None;
      }
    }
    problem := None;
  }

  /** A scan either does not start, or its explicit stack computes the recursive walk. */
  method ScanRoot(setup: Setup, policy: Option<CollapsePolicy>, fs: FileSystem, path: Bytes, probe: RootProbe)
    returns (result: ScanResult)
    requires fs.Valid()
    ensures !CanStart(setup, path, probe) ==>
              exists e :: Blames(setup, path, probe, e) && result == FailedResult(e)
    ensures CanStart(setup, path, probe) ==>
              probe.stat.RootStat? && result == ResultOf(policy, VisitedTree(setup, fs, path, probe.stat.stat))
  {
    var problem, mount := PrepareScanRoot(setup, path, probe);
    if problem.Some? {
      return FailedResult(problem.value);
    }
    var stat := probe.stat.stat;
    var started := setup.(rootDevice := stat.key.device);
    var root := Visit(path, None, 0, stat, mount);
    ghost var task := Task(started, policy, fs, WalkDirectory(started, fs, [], root, {}));
    var scanner := new Scanner(started, policy, fs, root);
    StartInProgress(task, root);
    scanner.ScanStack(task);
    if scanner.fatal.Some? {
      result := ScanResult(scanner.rows, scanner.errors, ScanFailed, scanner.fatal, scanner.hardlinkCount);
    } else {
      result := ScanResult(scanner.rows, scanner.errors, if scanner.hadFailure then ScanPartial else ScanComplete, None,
                           scanner.hardlinkCount);
    }
  }

  lemma StartBalanced(task: Task, root: Visit)
    ensures Balanced(task.setup, Scan([], [], {}, [FreshFrame(root)], [[]], false, 0))
  {
    var stack := [FreshFrame(root)];
    assert stack[..0] == [];
    assert ChainOf(stack) == [] + [LinkOf(root)];
    assert ChainKeys(ChainOf(stack)) == {root.stat.key};
  }

  lemma StartInProgress(task: Task, root: Visit)
    requires task.fs.Valid() && root.depth == 0
    requires task.goal == WalkDirectory(task.setup, task.fs, [], root, {})
    ensures
      var start := Scan([], [], {}, [FreshFrame(root)], [[]], false, 0);
      InProgress(task, start) && Balanced(task.setup, start)
  {
    var done: Progress := [[]];
    PendingOne(done);
    EmptyTop(task.policy, done);
    assert done[..0] == [];
    StartBalanced(task, root);
  }
}
