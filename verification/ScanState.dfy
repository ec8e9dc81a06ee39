/** What a scan in progress keeps: the fields of every frame are folds over the items handled
    in it, and the collected rows and errors are those of all items on the stack. */
module ScanState {
  import opened Models
  import opened Walk
  import opened Resume

  /** The state of a scan between two steps; done is kept for the proof only. */
  datatype Scan = Scan(
    rows: seq<DirectoryAggregate>,
    errors: seq<ScanError>,
    seen: set<Key>,
    stack: seq<Frame>,
    done: Progress,
    hadFailure: bool,
    hardlinkCount: int)

  datatype Task = Task(setup: Setup, policy: Option<CollapsePolicy>, fs: FileSystem, goal: Walked)

  // ----- one frame

  /** The frame's fields are the folds over the given items. */
  predicate FrameHolds(policy: Option<CollapsePolicy>, f: Frame, items: seq<Item>, rowsBelow: nat) {
    if f.initialized then
      f.totals == TotalsFrom(OwnTotals(f.visit.stat), items) &&
      f.error == FirstMessage(items) &&
      f.evidence == ItemsEvidence(items) &&
      f.directChildDirs == DirectoriesAmong(items) &&
      f.collapseReason == ReasonFor(policy, f.visit.path, items) &&
      f.top == TopOf(items) &&
      f.rowStart == rowsBelow &&
      0 <= f.nextIndex <= |f.entries|
    else
      f == FreshFrame(f.visit) && items == []
  }

  lemma AppendTotals(base: Totals, items: seq<Item>, item: Item)
    ensures TotalsFrom(base, items + [item]) == AddItem(TotalsFrom(base, items), item)
  {
  }

  lemma AppendRows(policy: Option<CollapsePolicy>, items: seq<Item>, item: Item)
    ensures ItemsRows(policy, items + [item]) == ItemsRows(policy, items) + ItemRows(policy, item)
  {
    assert (items + [item])[..|items|] == items;
  }

  function TopAfter(top: Top, item: Item): Top {
    if item.Child? then Better(top, item.node.path, NodeTotals(item.node).diskBytes) else top
  }

  /** The fan-out check made at every directory entry. */
  function ReasonAfter(policy: Option<CollapsePolicy>, f: Frame, isDirectory: bool): Option<CollapseReason> {
    if isDirectory && f.collapseReason.None? && policy.Some? && !IsProtected(f.visit.path, policy.value.never) &&
       f.directChildDirs + 1 >= policy.value.fanOut
    then Some(FanOut) else f.collapseReason
  }

  /** What handling an item does to its frame. */
  predicate FrameStep(policy: Option<CollapsePolicy>, f: Frame, f': Frame, item: Item) {
    f.initialized && f'.initialized && f'.visit == f.visit && f'.rowStart == f.rowStart &&
    f'.totals == AddItem(f.totals, item) &&
    f'.error == (if f.error.Some? then f.error else item.effect.message) &&
    f'.evidence == f.evidence + ItemEvidence(item) &&
    f'.directChildDirs == f.directChildDirs + (if item.effect.isDirectory then 1 else 0) &&
    f'.collapseReason == ReasonAfter(policy, f, item.effect.isDirectory) &&
    f'.top == TopAfter(f.top, item) &&
    0 <= f'.nextIndex <= |f'.entries|
  }

  lemma FrameStepHolds(policy: Option<CollapsePolicy>, f: Frame, f': Frame, items: seq<Item>, item: Item,
                       rowsBelow: nat)
    requires FrameHolds(policy, f, items, rowsBelow) && FrameStep(policy, f, f', item)
    ensures FrameHolds(policy, f', items + [item], rowsBelow)
  {
  }

  /** A directory that is entered counts before anything in it is known. */
  const ENTERED := Plain(DESCENDED)

  /** The frame of a parent after one of its directories is finished. */
  function Merged(f: Frame, node: Node): Frame {
    f.(totals := f.totals.PlusChild(NodeTotals(node)), evidence := f.evidence + NodeEvidence(node),
       top := Better(f.top, node.path, NodeTotals(node).diskBytes))
  }

  /** Merging a finished child completes the item of the entry it came from. */
  lemma MergeHolds(policy: Option<CollapsePolicy>, f: Frame, items: seq<Item>, node: Node, rowsBelow: nat)
    requires FrameHolds(policy, f, items + [ENTERED], rowsBelow) && f.initialized
    ensures FrameHolds(policy, Merged(f, node), items + [Child(DESCENDED, node)], rowsBelow)
  {
    var child := Child(DESCENDED, node);
    AppendTotals(OwnTotals(f.visit.stat), items, ENTERED);
    AppendTotals(OwnTotals(f.visit.stat), items, child);
    MergeSecondHalf(items, node);
  }

  lemma MergeSecondHalf(items: seq<Item>, node: Node)
    ensures
      var child := Child(DESCENDED, node);
      FirstMessage(items + [child]) == FirstMessage(items + [ENTERED]) &&
      ItemsEvidence(items + [child]) == ItemsEvidence(items + [ENTERED]) + NodeEvidence(node) &&
      DirectoriesAmong(items + [child]) == DirectoriesAmong(items + [ENTERED]) &&
      TopOf(items + [child]) == Better(TopOf(items + [ENTERED]), node.path, NodeTotals(node).diskBytes)
  {
  }

  // ----- the whole stack

  function PendingRows(policy: Option<CollapsePolicy>, done: Progress): seq<DirectoryAggregate> {
    if done == [] then [] else PendingRows(policy, done[..|done| - 1]) + ItemsRows(policy, done[|done| - 1])
  }

  function PendingErrors(done: Progress): seq<ScanError> {
    if done == [] then [] else PendingErrors(done[..|done| - 1]) + ItemsErrors(done[|done| - 1])
  }

  predicate PendingIncomplete(done: Progress) {
    done != [] && (PendingIncomplete(done[..|done| - 1]) || ItemsIncomplete(done[|done| - 1]))
  }

  function PendingHardlinks(done: Progress): int {
    if done == [] then 0
    else PendingHardlinks(done[..|done| - 1]) + ItemsHardlinks(done[|done| - 1])
  }

  /** Every frame below the top waits for the directory it entered. */
  predicate ParentsHold(policy: Option<CollapsePolicy>, stack: seq<Frame>, done: Progress) {
    |stack| == |done| &&
    (stack == [] ||
     var last := |stack| - 1;
     stack[last].initialized && stack[last].visit.depth == last &&
     FrameHolds(policy, stack[last], done[last] + [ENTERED], |PendingRows(policy, done[..last])|) &&
     ParentsHold(policy, stack[..last], done[..last]))
  }

  predicate StackHolds(policy: Option<CollapsePolicy>, stack: seq<Frame>, done: Progress) {
    |stack| == |done| && stack != [] &&
    var last := |stack| - 1;
    stack[last].visit.depth == last &&
    FrameHolds(policy, stack[last], done[last], |PendingRows(policy, done[..last])|) &&
    ParentsHold(policy, stack[..last], done[..last])
  }

  predicate Collected(policy: Option<CollapsePolicy>, v: Scan) {
    v.rows == PendingRows(policy, v.done) &&
    v.errors == PendingErrors(v.done) &&
    v.hadFailure == PendingIncomplete(v.done) &&
    v.hardlinkCount == PendingHardlinks(v.done)
  }

  /** The invariant of the scan loop. */
  ghost predicate InProgress(task: Task, v: Scan) {
    Resumable(task.fs, v.stack, v.done) &&
    StackHolds(task.policy, v.stack, v.done) &&
    Collected(task.policy, v) &&
    Outcome(task.setup, task.fs, v.stack, v.done, v.seen) == task.goal
  }

  /** The stack is empty and everything of the tree has been collected. */
  predicate IsFinished(task: Task, v: Scan) {
    var n := task.goal.node;
    n.fate.Listed? && v.stack == [] && v.rows == NodeRows(task.policy, n) && v.errors == NodeErrors(n) &&
    v.hadFailure == NodeIncomplete(n) && v.hardlinkCount == ItemsHardlinks(n.items) && v.seen == task.goal.seen
  }

  ghost function WorkLeft(task: Task, v: Scan): nat
    requires Resumable(task.fs, v.stack, v.done)
  {
    Work(task.setup, task.fs, v.stack, v.done, v.seen)
  }

  // ----- what is pending, when the top item list grows or is joined to the one below

  lemma AppendedBelow(done: Progress, item: Item)
    requires done != []
    ensures
      var last := |done| - 1;
      |Appended(done, item)| == |done| && Appended(done, item)[..last] == done[..last] &&
      Appended(done, item)[last] == done[last] + [item]
  {
  }

  lemma PendingRowsAppended(policy: Option<CollapsePolicy>, done: Progress, item: Item)
    requires done != []
    ensures PendingRows(policy, Appended(done, item)) == PendingRows(policy, done) + ItemRows(policy, item)
  {
    AppendedBelow(done, item);
    var last := |done| - 1;
    AppendRows(policy, done[last], item);
    Regrouped(PendingRows(policy, done[..last]), ItemsRows(policy, done[last]), ItemRows(policy, item));
  }

  lemma PendingErrorsAppended(done: Progress, item: Item)
    requires done != []
    ensures PendingErrors(Appended(done, item)) == PendingErrors(done) + ItemErrors(item)
    ensures PendingIncomplete(Appended(done, item)) == (PendingIncomplete(done) || ItemIncomplete(item))
  {
    AppendedBelow(done, item);
    var last := |done| - 1;
    AppendErrors(done[last], item);
    Regrouped(PendingErrors(done[..last]), ItemsErrors(done[last]), ItemErrors(item));
  }

  lemma AppendErrors(items: seq<Item>, item: Item)
    ensures ItemsErrors(items + [item]) == ItemsErrors(items) + ItemErrors(item)
    ensures ItemsIncomplete(items + [item]) == (ItemsIncomplete(items) || ItemIncomplete(item))
  {
    assert (items + [item])[..|items|] == items;
  }

  lemma PendingHardlinksAppended(done: Progress, item: Item)
    requires done != []
    ensures PendingHardlinks(Appended(done, item)) == PendingHardlinks(done) + ItemHardlinks(item)
  {
  }

  /** A finished directory: listed to the end, or not listable. */
  predicate IsClosed(node: Node) {
    node.fate.Listed? || (node.fate.Unreadable? && node.items == [])
  }

  lemma JoinedIsAppended(done: Progress, node: Node)
    requires |done| >= 2
    ensures Joined(done, node) == Appended(done[..|done| - 1], Child(DESCENDED, node))
  {
  }

  lemma PendingRowsJoined(policy: Option<CollapsePolicy>, done: Progress, node: Node)
    requires |done| >= 2 && node.items == done[|done| - 1] && IsClosed(node)
    ensures PendingRows(policy, done) == PendingRows(policy, done[..|done| - 1]) + ItemsRows(policy, node.items)
    ensures PendingRows(policy, Joined(done, node)) == PendingRows(policy, done[..|done| - 1]) + NodeRows(policy, node)
  {
    JoinedIsAppended(done, node);
    PendingRowsAppended(policy, done[..|done| - 1], Child(DESCENDED, node));
  }

  function OwnErrors(node: Node): seq<ScanError> {
    if node.fate.Unreadable? then [node.fate.error] else []
  }

  predicate OwnIncomplete(node: Node) {
    node.fate.Unreadable? && node.fate.error.kind != MissingPath
  }

  lemma ClosedErrors(node: Node)
    requires IsClosed(node)
    ensures ItemErrors(Child(DESCENDED, node)) == ItemsErrors(node.items) + OwnErrors(node)
    ensures ItemIncomplete(Child(DESCENDED, node)) == (ItemsIncomplete(node.items) || OwnIncomplete(node))
  {
  }

  lemma Regrouped<T>(a: seq<T>, b: seq<T>, c: seq<T>)
    ensures a + (b + c) == (a + b) + c
  {
  }

  lemma PendingErrorsJoined(done: Progress, node: Node)
    requires |done| >= 2 && node.items == done[|done| - 1] && IsClosed(node)
    ensures PendingErrors(Joined(done, node)) == PendingErrors(done) + OwnErrors(node)
    ensures PendingIncomplete(Joined(done, node)) == (PendingIncomplete(done) || OwnIncomplete(node))
  {
    JoinedIsAppended(done, node);
    PendingErrorsAppended(done[..|done| - 1], Child(DESCENDED, node));
    ClosedErrors(node);
    Regrouped(PendingErrors(done[..|done| - 1]), ItemsErrors(node.items), OwnErrors(node));
  }

  lemma PendingHardlinksJoined(done: Progress, node: Node)
    requires |done| >= 2 && node.items == done[|done| - 1] && IsClosed(node)
    ensures PendingHardlinks(Joined(done, node)) == PendingHardlinks(done)
  {
    JoinedIsAppended(done, node);
    PendingHardlinksAppended(done[..|done| - 1], Child(DESCENDED, node));
  }

  lemma ReplaceTopHolds(policy: Option<CollapsePolicy>, stack: seq<Frame>, done: Progress, f: Frame, items: seq<Item>)
    requires StackHolds(policy, stack, done) && f.visit == stack[|stack| - 1].visit
    requires FrameHolds(policy, f, items, |PendingRows(policy, done[..|done| - 1])|)
    ensures StackHolds(policy, stack[|stack| - 1 := f], done[|done| - 1 := items])
  {
  }

  // ----- every step keeps the invariant and makes progress

  /** The state after an entry that is not entered. */
  function AfterEntry(policy: Option<CollapsePolicy>, v: Scan, f: Frame, item: Item, seen: set<Key>): Scan
    requires v.stack != [] && v.done != []
  {
    Scan(v.rows + ItemRows(policy, item), v.errors + ItemErrors(item), seen, v.stack[|v.stack| - 1 := f],
         Appended(v.done, item), v.hadFailure || ItemIncomplete(item),
         v.hardlinkCount + ItemHardlinks(item))
  }

  lemma EntryKeepsCollected(policy: Option<CollapsePolicy>, v: Scan, f: Frame, item: Item, seen: set<Key>)
    requires Collected(policy, v) && v.stack != [] && v.done != []
    ensures Collected(policy, AfterEntry(policy, v, f, item, seen))
  {
    PendingRowsAppended(policy, v.done, item);
    PendingErrorsAppended(v.done, item);
    PendingHardlinksAppended(v.done, item);
  }

  /** Whether an entry of the directory of f yields the item and leaves the given entries. */
  ghost predicate HandlesAs(s: Setup, stack: seq<Frame>, f: Frame, e: Entry, tail: seq<Entry>, seen: set<Key>,
                            item: Item, seen': set<Key>)
  {
    var h := Handle(s, ChainOf(stack), f.visit, e, seen);
    (h == Next(item, seen') && Rest(f) == tail) || (h == Abandon(item) && Rest(f) == [] && seen == seen')
  }

  lemma EntryKeepsOutcome(task: Task, v: Scan, f: Frame, item: Item, seen: set<Key>)
    requires Resumable(task.fs, v.stack, v.done) && v.stack != [] && Rest(v.stack[|v.stack| - 1]) != []
    requires v.stack[|v.stack| - 1].initialized && f.initialized && f.visit == v.stack[|v.stack| - 1].visit
    requires
      var es := Rest(v.stack[|v.stack| - 1]);
      HandlesAs(task.setup, v.stack, f, es[0], es[1..], v.seen, item, seen)
    ensures
      var handled := v.stack[|v.stack| - 1 := f];
      Resumable(task.fs, handled, Appended(v.done, item)) &&
      Outcome(task.setup, task.fs, handled, Appended(v.done, item), seen)
      == Outcome(task.setup, task.fs, v.stack, v.done, v.seen) &&
      Work(task.setup, task.fs, handled, Appended(v.done, item), seen)
      < Work(task.setup, task.fs, v.stack, v.done, v.seen)
  {
    var es := Rest(v.stack[|v.stack| - 1]);
    TailEntries(es, task.fs.keys);
    WalkPast(task.setup, task.fs, ChainOf(v.stack), f.visit, es, v.seen, item, Rest(f), seen);
    EntryStep(task.setup, task.fs, v.stack, v.done, v.seen, f, item, seen);
  }

  lemma EntryKeepsInvariant(task: Task, v: Scan, f: Frame, item: Item, seen: set<Key>)
    requires InProgress(task, v) && Rest(v.stack[|v.stack| - 1]) != []
    requires FrameStep(task.policy, v.stack[|v.stack| - 1], f, item)
    requires
      var es := Rest(v.stack[|v.stack| - 1]);
      HandlesAs(task.setup, v.stack, f, es[0], es[1..], v.seen, item, seen)
    ensures
      var after := AfterEntry(task.policy, v, f, item, seen);
      InProgress(task, after) && WorkLeft(task, after) < WorkLeft(task, v)
  {
    var last := |v.stack| - 1;
    EntryKeepsOutcome(task, v, f, item, seen);
    FrameStepHolds(task.policy, v.stack[last], f, v.done[last], item, |PendingRows(task.policy, v.done[..last])|);
    ReplaceTopHolds(task.policy, v.stack, v.done, f, v.done[last] + [item]);
    EntryKeepsCollected(task.policy, v, f, item, seen);
  }

  /** The state after an entry that is entered. */
  function AfterDescend(v: Scan, f: Frame, visit: Visit): Scan
    requires v.stack != []
  {
    v.(stack := v.stack[|v.stack| - 1 := f] + [FreshFrame(visit)], done := v.done + [[]])
  }

  lemma DescendKeepsOutcome(task: Task, v: Scan, f: Frame, visit: Visit)
    requires Resumable(task.fs, v.stack, v.done) && v.stack != [] && Rest(v.stack[|v.stack| - 1]) != []
    requires v.stack[|v.stack| - 1].initialized && f.initialized && f.visit == v.stack[|v.stack| - 1].visit
    requires Rest(f) == Rest(v.stack[|v.stack| - 1])[1..]
    requires Handle(task.setup, ChainOf(v.stack), f.visit, Rest(v.stack[|v.stack| - 1])[0], v.seen)
             == Descend(DESCENDED, visit)
    ensures
      var after := AfterDescend(v, f, visit);
      Resumable(task.fs, after.stack, after.done) &&
      Outcome(task.setup, task.fs, after.stack, after.done, v.seen)
      == Outcome(task.setup, task.fs, v.stack, v.done, v.seen) &&
      Work(task.setup, task.fs, after.stack, after.done, v.seen) < Work(task.setup, task.fs, v.stack, v.done, v.seen)
  {
    var es := Rest(v.stack[|v.stack| - 1]);
    WalkInto(task.setup, task.fs, ChainOf(v.stack), f.visit, es, v.seen, visit);
    DescendStep(task.setup, task.fs, v.stack, v.done, v.seen, f, visit);
  }

  lemma PushHolds(policy: Option<CollapsePolicy>, stack: seq<Frame>, done: Progress, f: Frame, visit: Visit)
    requires StackHolds(policy, stack, done) && f.visit == stack[|stack| - 1].visit && f.initialized
    requires FrameHolds(policy, f, done[|done| - 1] + [ENTERED], |PendingRows(policy, done[..|done| - 1])|)
    requires visit.depth == f.visit.depth + 1
    ensures StackHolds(policy, stack[|stack| - 1 := f] + [FreshFrame(visit)], done + [[]])
  {
  }

  lemma PushKeepsCollected(policy: Option<CollapsePolicy>, v: Scan, f: Frame, visit: Visit)
    requires Collected(policy, v) && v.stack != []
    ensures Collected(policy, AfterDescend(v, f, visit))
  {
  }

  lemma DescendKeepsInvariant(task: Task, v: Scan, f: Frame, visit: Visit)
    requires InProgress(task, v) && Rest(v.stack[|v.stack| - 1]) != []
    requires FrameStep(task.policy, v.stack[|v.stack| - 1], f, ENTERED)
    requires Rest(f) == Rest(v.stack[|v.stack| - 1])[1..]
    requires Handle(task.setup, ChainOf(v.stack), f.visit, Rest(v.stack[|v.stack| - 1])[0], v.seen)
             == Descend(DESCENDED, visit)
    requires visit.depth == f.visit.depth + 1
    ensures
      var after := AfterDescend(v, f, visit);
      InProgress(task, after) && WorkLeft(task, after) < WorkLeft(task, v)
  {
    DescendKeepsOutcome(task, v, f, visit);
    DescendHolds(task.policy, v, f, visit);
  }

  lemma DescendHolds(policy: Option<CollapsePolicy>, v: Scan, f: Frame, visit: Visit)
    requires StackHolds(policy, v.stack, v.done) && Collected(policy, v)
    requires FrameStep(policy, v.stack[|v.stack| - 1], f, ENTERED) && visit.depth == f.visit.depth + 1
    ensures
      var after := AfterDescend(v, f, visit);
      StackHolds(policy, after.stack, after.done) && Collected(policy, after)
  {
    var last := |v.stack| - 1;
    FrameStepHolds(policy, v.stack[last], f, v.done[last], ENTERED, |PendingRows(policy, v.done[..last])|);
    PushHolds(policy, v.stack, v.done, f, visit);
    PushKeepsCollected(policy, v, f, visit);
  }

  lemma EmptyTop(policy: Option<CollapsePolicy>, done: Progress)
    requires done != [] && done[|done| - 1] == []
    ensures PendingRows(policy, done) == PendingRows(policy, done[..|done| - 1])
  {
  }

  lemma OpenKeepsInvariant(task: Task, v: Scan, f: Frame)
    requires InProgress(task, v) && !v.stack[|v.stack| - 1].initialized
    requires task.fs.list(v.stack[|v.stack| - 1].visit.path) == Entries(f.entries)
    requires f.visit == v.stack[|v.stack| - 1].visit && f.initialized && f.nextIndex == 0
    requires FrameHolds(task.policy, f, [], |v.rows|)
    ensures
      var after := v.(stack := v.stack[|v.stack| - 1 := f]);
      InProgress(task, after) && WorkLeft(task, after) < WorkLeft(task, v)
  {
    OpenStep(task.setup, task.fs, v.stack, v.done, v.seen, f);
    OpenHolds(task.policy, v.stack, v.done, f);
  }

  lemma OpenHolds(policy: Option<CollapsePolicy>, stack: seq<Frame>, done: Progress, f: Frame)
    requires StackHolds(policy, stack, done) && !stack[|stack| - 1].initialized && f.visit == stack[|stack| - 1].visit
    requires FrameHolds(policy, f, [], |PendingRows(policy, done)|)
    ensures StackHolds(policy, stack[|stack| - 1 := f], done)
  {
  }

  /** The state after the top directory is replaced by rows and merged into its parent. */
  /** The stack after its top is closed and merged into the frame below. */
  function PoppedStack(stack: seq<Frame>, node: Node): seq<Frame>
    requires |stack| >= 2
  {
    stack[..|stack| - 1][|stack| - 2 := Merged(stack[|stack| - 2], node)]
  }

  function Popped(v: Scan, rows: seq<DirectoryAggregate>, node: Node): Scan
    requires |v.stack| >= 2 && |v.done| >= 2
  {
    Scan(rows, v.errors + OwnErrors(node), v.seen,
         PoppedStack(v.stack, node), Joined(v.done, node),
         v.hadFailure || OwnIncomplete(node), v.hardlinkCount)
  }

  /** The state after a child directory is closed and merged into its parent. */
  function AfterClose(policy: Option<CollapsePolicy>, v: Scan, node: Node): Scan
    requires |v.stack| >= 2 && |v.done| >= 2
  {
    Popped(v, PendingRows(policy, v.done[..|v.done| - 1]) + NodeRows(policy, node), node)
  }

  lemma CloseKeepsCollected(policy: Option<CollapsePolicy>, v: Scan, node: Node)
    requires Collected(policy, v) && |v.stack| >= 2 && |v.done| >= 2
    requires node.items == v.done[|v.done| - 1] && IsClosed(node)
    ensures Collected(policy, AfterClose(policy, v, node))
  {
    PendingRowsJoined(policy, v.done, node);
    PendingErrorsJoined(v.done, node);
    PendingHardlinksJoined(v.done, node);
  }

  lemma PopHolds(policy: Option<CollapsePolicy>, stack: seq<Frame>, done: Progress, node: Node)
    requires StackHolds(policy, stack, done) && |stack| >= 2
    ensures
      var parents := stack[..|stack| - 1];
      StackHolds(policy, parents[|parents| - 1 := Merged(parents[|parents| - 1], node)], Joined(done, node))
  {
    var parents := stack[..|stack| - 1];
    var below := done[..|done| - 1];
    var last := |parents| - 1;
    assert below[last] == done[last];
    MergeHolds(policy, parents[last], below[last], node, |PendingRows(policy, below[..last])|);
    assert Joined(done, node)[..last] == below[..last];
    assert Joined(done, node)[last] == below[last] + [Child(DESCENDED, node)];
    assert parents[last := Merged(parents[last], node)][..last] == parents[..last];
  }

  /** Running totals of a frame do not influence the outcome. */
  lemma ReplaceParent(task: Task, stack: seq<Frame>, done: Progress, seen: set<Key>, f: Frame)
    requires Resumable(task.fs, stack, done) && stack != []
    requires
      var top := stack[|stack| - 1];
      f.visit == top.visit && f.initialized == top.initialized && f.entries == top.entries &&
      f.nextIndex == top.nextIndex
    ensures
      var after := stack[|stack| - 1 := f];
      Resumable(task.fs, after, done) &&
      Outcome(task.setup, task.fs, after, done, seen) == Outcome(task.setup, task.fs, stack, done, seen) &&
      Work(task.setup, task.fs, after, done, seen) == Work(task.setup, task.fs, stack, done, seen)
  {
    var last := |stack| - 1;
    assert stack[last := f][..last] == stack[..last];
    ReplaceTop(stack, f);
  }

  lemma CloseKeepsInvariant(task: Task, v: Scan, node: Node)
    requires InProgress(task, v) && |v.stack| >= 2
    requires TopResult(task.setup, task.fs, v.stack, v.done, v.seen) == Walked(node, v.seen)
    requires node.items == v.done[|v.done| - 1] && IsClosed(node)
    ensures
      var after := AfterClose(task.policy, v, node);
      InProgress(task, after) && WorkLeft(task, after) < WorkLeft(task, v)
  {
    var parents := v.stack[..|v.stack| - 1];
    CloseStep(task.setup, task.fs, v.stack, v.done, v.seen, node);
    ReplaceParent(task, parents, Joined(v.done, node), v.seen, Merged(parents[|parents| - 1], node));
    PopHolds(task.policy, v.stack, v.done, node);
    CloseKeepsCollected(task.policy, v, node);
  }

  /** Closing the root finishes the scan. */
  lemma CloseRootFinishes(task: Task, v: Scan, after: Scan)
    requires InProgress(task, v) && |v.stack| == 1 && v.stack[0].initialized && Rest(v.stack[0]) == []
    requires after.stack == [] && after.rows == NodeRows(task.policy, NodeOf(v.stack[0].visit, Listed, v.done[0]))
    requires after.errors == v.errors && after.seen == v.seen && after.hadFailure == v.hadFailure
    requires after.hardlinkCount == v.hardlinkCount
    ensures IsFinished(task, after)
  {
    assert v.done[0] + [] == v.done[0];
    assert task.goal == Walked(NodeOf(v.stack[0].visit, Listed, v.done[0]), v.seen);
    PendingOne(v.done);
  }

  lemma PendingOne(done: Progress)
    requires |done| == 1
    ensures PendingErrors(done) == ItemsErrors(done[0]) && PendingIncomplete(done) == ItemsIncomplete(done[0])
    ensures PendingHardlinks(done) == ItemsHardlinks(done[0])
  {
  }

  // ----- what the steps of the loop do to the state

  /** The state after the top directory is listed. */
  function OpenedFrame(policy: Option<CollapsePolicy>, f: Frame, entries: seq<Entry>, rowsBelow: nat): Frame {
    f.(initialized := true, totals := OwnTotals(f.visit.stat), rowStart := rowsBelow,
       collapseReason := InitialReason(policy, f.visit.path), entries := entries)
  }

  function UnreadableNode(d: Visit, kind: Kind, detail: string): Node {
    NodeOf(d, Unreadable(ScanError(d.path, kind, SystemError(kind, detail))), [])
  }

  predicate HasEntry(f: Frame) {
    0 <= f.nextIndex < |f.entries|
  }

  predicate MovedOn(f: Frame, f': Frame) {
    f'.entries == f.entries && f'.nextIndex == f.nextIndex + 1
  }

  predicate GaveUp(f': Frame) {
    f'.entries == [] && f'.nextIndex == 0
  }

  lemma RestAfterEntry(f: Frame, f': Frame)
    requires HasEntry(f)
    ensures Rest(f) != [] && Rest(f)[0] == f.entries[f.nextIndex]
    ensures MovedOn(f, f') ==> Rest(f') == Rest(f)[1..]
    ensures GaveUp(f') ==> Rest(f') == []
  {
  }

  /** One entry of the top directory was handled as the walk handles it. */
  predicate EntryHandled(policy: Option<CollapsePolicy>, v: Scan, w: Scan, h: Handled)
    requires v.stack != [] && v.done != []
  {
    var last := |v.stack| - 1;
    var top := v.stack[last];
    |w.stack| > last &&
    var f := w.stack[last];
    match h
    case Next(item, seen) =>
      FrameStep(policy, top, f, item) && MovedOn(top, f) && w == AfterEntry(policy, v, f, item, seen)
    case Abandon(item) => FrameStep(policy, top, f, item) && GaveUp(f) && w == AfterEntry(policy, v, f, item, v.seen)
    case Descend(_, visit) => FrameStep(policy, top, f, ENTERED) && MovedOn(top, f) && w == AfterDescend(v, f, visit)
  }

  function HandleTop(s: Setup, v: Scan): Handled
    requires v.stack != [] && HasEntry(v.stack[|v.stack| - 1])
  {
    var top := v.stack[|v.stack| - 1];
    Handle(s, ChainOf(v.stack), top.visit, top.entries[top.nextIndex], v.seen)
  }

  lemma DescendedVisit(s: Setup, v: Scan)
    requires v.stack != [] && HasEntry(v.stack[|v.stack| - 1]) && HandleTop(s, v).Descend?
    ensures HandleTop(s, v).effect == DESCENDED
    ensures HandleTop(s, v).visit.depth == v.stack[|v.stack| - 1].visit.depth + 1
  {
  }

  lemma HandledKeepsInvariant(task: Task, v: Scan, w: Scan, h: Handled)
    requires InProgress(task, v) && HasEntry(v.stack[|v.stack| - 1])
    requires h == HandleTop(task.setup, v) && EntryHandled(task.policy, v, w, h)
    ensures InProgress(task, w) && WorkLeft(task, w) < WorkLeft(task, v)
  {
    match h {
      case Next(item, seen) => NextKeepsInvariant(task, v, w, item, seen);
      case Abandon(item) => AbandonKeepsInvariant(task, v, w, item);
      case Descend(effect, visit) =>
        DescendedVisit(task.setup, v);
        EnterKeepsInvariant(task, v, w, visit);
    }
  }

  lemma NextKeepsInvariant(task: Task, v: Scan, w: Scan, item: Item, seen: set<Key>)
    requires InProgress(task, v) && HasEntry(v.stack[|v.stack| - 1])
    requires Next(item, seen) == HandleTop(task.setup, v) && EntryHandled(task.policy, v, w, Next(item, seen))
    ensures InProgress(task, w) && WorkLeft(task, w) < WorkLeft(task, v)
  {
    var f := w.stack[|v.stack| - 1];
    RestAfterEntry(v.stack[|v.stack| - 1], f);
    var es := Rest(v.stack[|v.stack| - 1]);
    assert HandlesAs(task.setup, v.stack, f, es[0], es[1..], v.seen, item, seen);
    EntryKeepsInvariant(task, v, f, item, seen);
  }

  lemma AbandonKeepsInvariant(task: Task, v: Scan, w: Scan, item: Item)
    requires InProgress(task, v) && HasEntry(v.stack[|v.stack| - 1])
    requires Abandon(item) == HandleTop(task.setup, v) && EntryHandled(task.policy, v, w, Abandon(item))
    ensures InProgress(task, w) && WorkLeft(task, w) < WorkLeft(task, v)
  {
    var f := w.stack[|v.stack| - 1];
    RestAfterEntry(v.stack[|v.stack| - 1], f);
    var es := Rest(v.stack[|v.stack| - 1]);
    assert HandlesAs(task.setup, v.stack, f, es[0], es[1..], v.seen, item, v.seen);
    EntryKeepsInvariant(task, v, f, item, v.seen);
  }

  lemma EnterKeepsInvariant(task: Task, v: Scan, w: Scan, visit: Visit)
    requires InProgress(task, v) && HasEntry(v.stack[|v.stack| - 1])
    requires Descend(DESCENDED, visit) == HandleTop(task.setup, v)
    requires visit.depth == v.stack[|v.stack| - 1].visit.depth + 1
    requires EntryHandled(task.policy, v, w, Descend(DESCENDED, visit))
    ensures InProgress(task, w) && WorkLeft(task, w) < WorkLeft(task, v)
  {
    RestAfterEntry(v.stack[|v.stack| - 1], w.stack[|v.stack| - 1]);
    DescendKeepsInvariant(task, v, w.stack[|v.stack| - 1], visit);
  }
}
