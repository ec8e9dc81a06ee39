/** The recursive meaning of a scan: the tree of visited directories, and the rows, totals,
    errors and evidence that are folds over it. */
module Walk {
  import opened Models
  import opened Paths
  import opened Mounts

  // ----- the file system as a scan sees it

  /** st_dev and st_ino. */
  datatype Key = Key(device: int, inode: int)

  datatype DirectoryStat = DirectoryStat(key: Key, size: int, blocks: int)

  datatype FileKind = Regular | Symlink | OtherFile

  datatype FileStat = FileStat(key: Key, kind: FileKind, size: int, blocks: int, links: int)

  datatype EntryStat =
    | StatFailed(kind: Kind, detail: string)
    | IsFile(file: FileStat)
    | IsDirectory(directory: DirectoryStat)

  /** What is_dir() answers for an excluded entry. */
  datatype DirectoryProbe = ProbeFailed | NotDirectory | LooksLikeDirectory

  datatype Entry = Entry(name: Bytes, stat: EntryStat, probe: DirectoryProbe)

  /** Entries come in the order of their path bytes. */
  datatype Listing = Unlistable(kind: Kind, detail: string) | Entries(entries: seq<Entry>)

  /** An unchanging tree of paths, which may repeat directories through bind mounts, over
      finitely many directory inodes. */
  datatype FileSystem = FileSystem(list: Bytes -> Listing, keys: set<Key>)
  {
    ghost predicate Valid() {
      forall path: Bytes :: DirectoriesIn(list(path), keys)
    }
  }

  predicate DirectoriesIn(listing: Listing, keys: set<Key>) {
    listing.Entries? ==> EntriesIn(listing.entries, keys)
  }

  predicate EntriesIn(entries: seq<Entry>, keys: set<Key>) {
    forall i :: 0 <= i < |entries| && entries[i].stat.IsDirectory? ==> entries[i].stat.directory.key in keys
  }

  const BYTES_PER_BLOCK := 512

  // ----- configuration

  datatype CollapsePolicy = CollapsePolicy(names: set<Bytes>, fanOut: int, never: seq<Bytes>)

  datatype Setup = Setup(
    excludePaths: seq<Bytes>,
    mounts: seq<Mount>,
    mountPolicy: MountPolicy,
    recordSkipped: bool,
    hardlinkMaxEntries: int,
    rootDevice: int)

  // ----- the visited tree

  /** The error list of a scan, in the order in which the errors are met. */
  datatype ScanError = ScanError(path: Bytes, kind: Kind, message: RowError)

  /** What one entry adds to its directory, apart from a child row. */
  datatype Effect = Effect(
    errors: seq<ScanError>,
    evidence: multiset<Kind>,
    message: Option<RowError>,
    incomplete: bool,
    isDirectory: bool,
    use: Use)

  /** How a file counts: once for its single name, or by whether its inode was seen before;
      past the limit of tracked inodes its disk bytes do not count. */
  datatype Counting = SingleName | FirstName | LaterName | PastLimit

  datatype Use = NoFile | File(file: FileStat, counting: Counting)

  const NO_EFFECT := Effect([], multiset{}, None, false, false, NoFile)

  datatype Item = Plain(effect: Effect) | Child(effect: Effect, node: Node)

  /** A directory was listed, could not be listed, or was not entered at all. */
  datatype Fate = Listed | Unreadable(error: ScanError) | Skipped(why: RowError)

  datatype Node = Node(
    path: Bytes,
    parentPath: Option<Bytes>,
    depth: int,
    own: Totals,
    fate: Fate,
    items: seq<Item>)

  // ----- what happens at one entry

  /** The identity and mount of a directory on the way down. */
  datatype Link = Link(key: Key, mount: Option<Mount>)

  function ChainKeys(chain: seq<Link>): set<Key> {
    set l | l in chain :: l.key
  }

  /** A directory about to be visited. */
  datatype Visit = Visit(path: Bytes, parentPath: Option<Bytes>, depth: int, stat: DirectoryStat, mount: Option<Mount>)

  function LinkOf(d: Visit): Link {
    Link(d.stat.key, d.mount)
  }

  predicate IsExcluded(path: Bytes, excludePaths: seq<Bytes>) {
    exists i :: 0 <= i < |excludePaths| &&
      (path == excludePaths[i] || excludePaths[i] == ROOT || excludePaths[i] + [SLASH] <= path)
  }

  /** Whether an active mount is entered a second time. */
  predicate IsMountCycle(chain: seq<Link>, current: Option<Mount>, mount: Mount) {
    !(current.Some? && SameMount(current.value, mount)) &&
    exists i :: 0 <= i < |chain| && chain[i].mount.Some? &&
      (chain[i].mount.value.mountId == mount.mountId || SameSignature(chain[i].mount.value, mount))
  }

  predicate SameSignature(a: Mount, b: Mount) {
    a.majorMinor == b.majorMinor && a.root == b.root && a.mountPoint == b.mountPoint
  }

  predicate SameMount(a: Mount, b: Mount) {
    a.mountId == b.mountId && SameSignature(a, b)
  }

  /** should_descend; the chain ends with the directory that holds the entry. */
  function ShouldDescend(s: Setup, chain: seq<Link>, current: Option<Mount>, mount: Option<Mount>, stat: DirectoryStat):
    (decision: Decision)
    ensures decision.Enter? ==> stat.key !in ChainKeys(chain)
  {
    var filesystemType := if mount.Some? then Some(mount.value.filesystemType) else None;
    var classified := ClassifyMount(mount, s.mountPolicy);
    if classified.Skip? then classified
    else if s.mountPolicy.oneFilesystem && stat.key.device != s.rootDevice then
      Skip(SeparateFilesystem(s.rootDevice, stat.key.device), filesystemType)
    else if mount.Some? && IsMountCycle(chain, current, mount.value) then
      Skip(MountCycle(mount.value.mountId), filesystemType)
    else if stat.key in ChainKeys(chain) then
      Skip(DirectoryCycle(stat.key.device, stat.key.inode), filesystemType)
    else Enter
  }

  predicate IsAdmitted(policy: MountPolicy, mount: Option<Mount>) {
    mount.Some? ==> Admits(policy, mount.value.filesystemType)
  }

  predicate IsForeign(s: Setup, stat: DirectoryStat) {
    s.mountPolicy.oneFilesystem && stat.key.device != s.rootDevice
  }

  predicate SameOrigin(a: Mount, b: Mount) {
    a.majorMinor == b.majorMinor && a.root == b.root && a.mountPoint == b.mountPoint
  }

  /** The mount is not the one that the walk is on, and an active one has its id, or its device, root and
      mount point. */
  predicate ClosesMountCycle(chain: seq<Link>, current: Option<Mount>, mount: Option<Mount>) {
    mount.Some? &&
    !(current.Some? && current.value.mountId == mount.value.mountId && SameOrigin(current.value, mount.value)) &&
    exists i :: 0 <= i < |chain| && chain[i].mount.Some? &&
      (chain[i].mount.value.mountId == mount.value.mountId || SameOrigin(chain[i].mount.value, mount.value))
  }

  /** What the reason for not entering a directory says is so, and no reason that goes before it is. */
  predicate SkipHolds(s: Setup, chain: seq<Link>, current: Option<Mount>, mount: Option<Mount>, stat: DirectoryStat,
                      reason: SkipReason)
  {
    match reason
    case SeparateFilesystem(root, child) =>
      IsAdmitted(s.mountPolicy, mount) && IsForeign(s, stat) && root == s.rootDevice && child == stat.key.device
    case MountCycle(id) =>
      IsAdmitted(s.mountPolicy, mount) && !IsForeign(s, stat) &&
      ClosesMountCycle(chain, current, mount) && id == mount.value.mountId
    case DirectoryCycle(device, inode) =>
      IsAdmitted(s.mountPolicy, mount) && !IsForeign(s, stat) && !ClosesMountCycle(chain, current, mount) &&
      stat.key == Key(device, inode) && exists l :: l in chain && l.key == stat.key
    case _ =>
      !IsAdmitted(s.mountPolicy, mount) && IsReasonToSkip(s.mountPolicy, mount.value.filesystemType, reason)
  }

  /** A directory is entered exactly when its mount is admitted, it is on the device of the root if it
      has to be, and entering repeats neither a mount nor a directory that is being visited. */
  lemma {:induction false} DescendsIff(s: Setup, chain: seq<Link>, current: Option<Mount>, mount: Option<Mount>,
                                       stat: DirectoryStat)
    ensures
      var decision := ShouldDescend(s, chain, current, mount, stat);
      (decision.Enter? <==>
        IsAdmitted(s.mountPolicy, mount) && !IsForeign(s, stat) && !ClosesMountCycle(chain, current, mount) &&
        forall l :: l in chain ==> l.key != stat.key) &&
      (decision.Skip? ==> SkipHolds(s, chain, current, mount, stat, decision.reason))
  {
    if mount.Some? {
      ClassifiedAsAdmitted(mount.value, s.mountPolicy);
    }
  }

  function DiskBytes(f: FileStat): int {
    if f.kind == OtherFile then 0 else f.blocks * BYTES_PER_BLOCK
  }

  function ApparentBytes(f: FileStat): int {
    if f.kind == OtherFile then 0 else f.size
  }

  predicate IsHardlinked(f: FileStat) {
    f.kind == Regular && f.links > 1
  }

  function Count(f: FileStat, seen: set<Key>): Counting {
    if !IsHardlinked(f) then SingleName else if f.key in seen then LaterName else FirstName
  }

  /** The totals of a directory after one more file. */
  function AddFile(t: Totals, f: FileStat, counting: Counting): Totals {
    var disk := DiskBytes(f);
    var counted := Totals(t.apparentBytes + ApparentBytes(f), t.diskBytes, t.fileCount + 1, t.dirCount, t.hardlinks);
    var h := t.hardlinks;
    match counting
    case PastLimit => counted
    case SingleName => counted.(diskBytes := t.diskBytes + disk)
    case FirstName =>
      counted.(diskBytes := t.diskBytes + disk,
               hardlinks := Hardlinks(h.fileCount + 1, h.duplicateCount, h.duplicateDiskBytes,
                                      h.firstSeenDiskBytes + disk))
    case LaterName =>
      counted.(hardlinks := Hardlinks(h.fileCount + 1, h.duplicateCount + 1, h.duplicateDiskBytes + disk,
                                      h.firstSeenDiskBytes))
  }

  function SkippedNode(path: Bytes, parent: Visit, why: RowError): Node {
    Node(path, Some(parent.path), parent.depth + 1, ZERO_TOTALS, Skipped(why), [])
  }

  /** One entry ends here, ends the whole directory, or is a directory to visit. */
  datatype Handled =
    | Next(item: Item, seen: set<Key>)
    | Abandon(item: Item)
    | Descend(effect: Effect, visit: Visit)

  function ExcludedEntry(s: Setup, d: Visit, e: Entry): Item {
    var path := Join(d.path, e.name);
    var errors := if s.recordSkipped then [ScanError(path, Excluded, ExcludedByConfiguration)] else [];
    var effect := NO_EFFECT.(errors := errors, evidence := multiset{Excluded});
    if e.probe == LooksLikeDirectory then Child(effect, SkippedNode(path, d, ExcludedByConfiguration))
    else Plain(effect)
  }

  function FailedEntry(path: Bytes, kind: Kind, detail: string): Item {
    var message := SystemError(kind, detail);
    Plain(NO_EFFECT.(errors := [ScanError(path, kind, message)], evidence := multiset{kind}, message := Some(message),
                     incomplete := kind != MissingPath))
  }

  /** A directory that is not entered leaves an empty row, except on default virtual file systems. */
  function SkippedEntry(s: Setup, d: Visit, path: Bytes, reason: SkipReason, filesystemType: Option<string>): Item {
    var errors := if s.recordSkipped then [ScanError(path, MountSkipped, NotEntered(reason))] else [];
    var effect := NO_EFFECT.(errors := errors, evidence := multiset{MountSkipped}, isDirectory := true);
    if IsDefaultVirtual(filesystemType) then Plain(effect) else Child(effect, SkippedNode(path, d, NotEntered(reason)))
  }

  function DirectoryEntry(s: Setup, chain: seq<Link>, d: Visit, path: Bytes, stat: DirectoryStat, seen: set<Key>):
    Handled
  {
    var mount := if s.mounts != [] then FindMount(path, s.mounts) else None;
    match ShouldDescend(s, chain, d.mount, mount, stat)
    case Enter =>
      Descend(NO_EFFECT.(isDirectory := true),
              Visit(path, Some(d.path), d.depth + 1, stat, if mount.Some? then mount else d.mount))
    case Skip(reason, filesystemType) => Next(SkippedEntry(s, d, path, reason, filesystemType), seen)
  }

  function FileEntry(s: Setup, path: Bytes, f: FileStat, seen: set<Key>): Handled {
    if IsHardlinked(f) && f.key !in seen && |seen| >= s.hardlinkMaxEntries then
      var message := HardlinkLimitExceeded(s.hardlinkMaxEntries);
      Abandon(Plain(Effect([ScanError(path, HardlinkLimit, message)], multiset{HardlinkLimit}, Some(message), true,
                           false, File(f, PastLimit))))
    else
      Next(Plain(NO_EFFECT.(use := File(f, Count(f, seen)))), if IsHardlinked(f) then seen + {f.key} else seen)
  }

  /** Files with a single link never enter the set of seen inodes. */
  function Handle(s: Setup, chain: seq<Link>, d: Visit, e: Entry, seen: set<Key>): Handled {
    var path := Join(d.path, e.name);
    if IsExcluded(path, s.excludePaths) then Next(ExcludedEntry(s, d, e), seen)
    else match e.stat
      case StatFailed(kind, detail) => Next(FailedEntry(path, kind, detail), seen)
      case IsDirectory(stat) => DirectoryEntry(s, chain, d, path, stat, seen)
      case IsFile(f) => FileEntry(s, path, f, seen)
  }

  // ----- the walk

  datatype Walked = Walked(node: Node, seen: set<Key>)
  datatype WalkedItems = WalkedItems(items: seq<Item>, seen: set<Key>)

  function OwnTotals(stat: DirectoryStat): Totals {
    Totals(stat.size, stat.blocks * BYTES_PER_BLOCK, 0, 0, NO_HARDLINKS)
  }

  function NodeOf(d: Visit, fate: Fate, items: seq<Item>): Node {
    Node(d.path, d.parentPath, d.depth, OwnTotals(d.stat), fate, items)
  }

  /** Visits a directory below the given chain of active directories. */
  function WalkDirectory(s: Setup, fs: FileSystem, chain: seq<Link>, d: Visit, seen: set<Key>): Walked
    requires fs.Valid()
    decreases fs.keys - ChainKeys(chain + [LinkOf(d)]), 1, 0
  {
    match fs.list(d.path)
    case Unlistable(kind, detail) =>
      Walked(NodeOf(d, Unreadable(ScanError(d.path, kind, SystemError(kind, detail))), []), seen)
    case Entries(entries) =>
      assert DirectoriesIn(fs.list(d.path), fs.keys);
      var w := WalkEntries(s, fs, chain + [LinkOf(d)], d, entries, seen);
      Walked(NodeOf(d, Listed, w.items), w.seen)
  }

  /** Handles the remaining entries of a directory. The walk ends although the tree of paths
      may be infinite: no directory is entered below itself. */
  function WalkEntries(s: Setup, fs: FileSystem, chain: seq<Link>, d: Visit, entries: seq<Entry>, seen: set<Key>):
    WalkedItems
    requires fs.Valid() && EntriesIn(entries, fs.keys)
    decreases fs.keys - ChainKeys(chain), 0, |entries|
  {
    if entries == [] then WalkedItems([], seen)
    else
      match Handle(s, chain, d, entries[0], seen)
      case Next(item, seen') =>
        var rest := WalkEntries(s, fs, chain, d, entries[1..], seen');
        WalkedItems([item] + rest.items, rest.seen)
      case Abandon(item) => WalkedItems([item], seen)
      case Descend(effect, visit) =>
        DescendShrinks(s, fs, chain, d, entries[0], seen);
        var child := WalkDirectory(s, fs, chain, visit, seen);
        var rest := WalkEntries(s, fs, chain, d, entries[1..], child.seen);
        WalkedItems([Child(effect, child.node)] + rest.items, rest.seen)
  }

  lemma DescendShrinks(s: Setup, fs: FileSystem, chain: seq<Link>, d: Visit, e: Entry, seen: set<Key>)
    requires Handle(s, chain, d, e, seen).Descend?
    requires e.stat.IsDirectory? ==> e.stat.directory.key in fs.keys
    ensures
      var visit := Handle(s, chain, d, e, seen).visit;
      fs.keys - ChainKeys(chain + [LinkOf(visit)]) < fs.keys - ChainKeys(chain)
  {
    var visit := Handle(s, chain, d, e, seen).visit;
    assert e.stat.IsDirectory? && visit.stat == e.stat.directory;
    assert ChainKeys(chain + [LinkOf(visit)]) == ChainKeys(chain) + {visit.stat.key};
    assert visit.stat.key in fs.keys - ChainKeys(chain);
  }

  // ----- folds over the tree

  function AddUse(t: Totals, use: Use): Totals {
    match use
    case NoFile => t
    case File(file, counting) => AddFile(t, file, counting)
  }

  /** The running totals of a directory after one of its entries. */
  function AddItem(t: Totals, item: Item): Totals
    decreases item
  {
    match item
    case Plain(effect) => AddUse(t, effect.use)
    case Child(_, node) => t.PlusChild(NodeTotals(node))
  }

  function TotalsFrom(base: Totals, items: seq<Item>): Totals
    decreases items
  {
    if |items| == 0 then base else AddItem(TotalsFrom(base, items[..|items| - 1]), items[|items| - 1])
  }

  function NodeTotals(n: Node): Totals
    decreases n
  {
    TotalsFrom(n.own, n.items)
  }

  function UseHardlinks(use: Use): nat {
    if use.File? && (use.counting == FirstName || use.counting == LaterName) then 1 else 0
  }

  /** The names of files with several links that were counted. */
  function ItemHardlinks(item: Item): nat
    decreases item
  {
    match item
    case Plain(effect) => UseHardlinks(effect.use)
    case Child(_, node) => ItemsHardlinks(node.items)
  }

  function ItemsHardlinks(items: seq<Item>): nat
    decreases items
  {
    if |items| == 0 then 0 else ItemsHardlinks(items[..|items| - 1]) + ItemHardlinks(items[|items| - 1])
  }

  /** The first problem met among the entries of a directory. */
  function FirstMessage(items: seq<Item>): Option<RowError> {
    if |items| == 0 then None
    else
      var before := FirstMessage(items[..|items| - 1]);
      if before.Some? then before else items[|items| - 1].effect.message
  }

  function NodeError(n: Node): Option<RowError> {
    match n.fate
    case Listed => FirstMessage(n.items)
    case Unreadable(error) => Some(error.message)
    case Skipped(why) => Some(why)
  }

  function ItemEvidence(item: Item): multiset<Kind>
    decreases item
  {
    match item
    case Plain(effect) => effect.evidence
    case Child(effect, node) => effect.evidence + NodeEvidence(node)
  }

  function ItemsEvidence(items: seq<Item>): multiset<Kind>
    decreases items
  {
    if |items| == 0 then multiset{}
    else ItemsEvidence(items[..|items| - 1]) + ItemEvidence(items[|items| - 1])
  }

  function NodeEvidence(n: Node): multiset<Kind>
    decreases n
  {
    match n.fate
    case Listed => ItemsEvidence(n.items)
    case Unreadable(error) => multiset{error.kind}
    case Skipped(_) => multiset{}
  }

  function ItemErrors(item: Item): seq<ScanError>
    decreases item
  {
    match item
    case Plain(effect) => effect.errors
    case Child(effect, node) => effect.errors + NodeErrors(node)
  }

  function ItemsErrors(items: seq<Item>): seq<ScanError>
    decreases items
  {
    if |items| == 0 then []
    else ItemsErrors(items[..|items| - 1]) + ItemErrors(items[|items| - 1])
  }

  function NodeErrors(n: Node): seq<ScanError>
    decreases n
  {
    match n.fate
    case Listed => ItemsErrors(n.items)
    case Unreadable(error) => [error]
    case Skipped(_) => []
  }

  predicate ItemIncomplete(item: Item)
    decreases item
  {
    item.effect.incomplete || (item.Child? && NodeIncomplete(item.node))
  }

  predicate ItemsIncomplete(items: seq<Item>)
    decreases items
  {
    |items| > 0 && (ItemsIncomplete(items[..|items| - 1]) || ItemIncomplete(items[|items| - 1]))
  }

  /** Whether something below kept the scan from being complete. */
  predicate NodeIncomplete(n: Node)
    decreases n
  {
    match n.fate
    case Listed => ItemsIncomplete(n.items)
    case Unreadable(error) => error.kind != MissingPath
    case Skipped(_) => false
  }

  /** The first of the children with the most disk bytes. */
  datatype Top = NoChild | TopChild(path: Bytes, diskBytes: int)

  function Better(top: Top, path: Bytes, diskBytes: int): Top {
    if top.NoChild? || diskBytes > top.diskBytes then TopChild(path, diskBytes) else top
  }

  function TopOf(items: seq<Item>): Top {
    if |items| == 0 then NoChild
    else
      var before := TopOf(items[..|items| - 1]);
      var last := items[|items| - 1];
      if last.Child? then Better(before, last.node.path, NodeTotals(last.node).diskBytes) else before
  }

  function DirectoriesAmong(items: seq<Item>): nat {
    if |items| == 0 then 0
    else DirectoriesAmong(items[..|items| - 1]) + if items[|items| - 1].effect.isDirectory then 1 else 0
  }

  // ----- collapsing

  predicate IsSameOrDescendant(path: Bytes, ancestor: Bytes) {
    path == ancestor || IsAncestorPath(ancestor, path)
  }

  /** On a branch to or below a path that must keep its rows. */
  predicate IsProtected(path: Bytes, never: seq<Bytes>) {
    exists i :: 0 <= i < |never| && (IsSameOrDescendant(path, never[i]) || IsSameOrDescendant(never[i], path))
  }

  /** What follows the last slash. */
  function BaseName(path: Bytes): Bytes {
    if path == [] || path[|path| - 1] == SLASH then [] else BaseName(path[..|path| - 1]) + [path[|path| - 1]]
  }

  function InitialReason(policy: Option<CollapsePolicy>, path: Bytes): Option<CollapseReason> {
    if policy.None? || IsProtected(path, policy.value.never) then None
    else if BaseName(path) in policy.value.names then Some(KnownNoise)
    else None
  }

  function ReasonFor(policy: Option<CollapsePolicy>, path: Bytes, items: seq<Item>): Option<CollapseReason> {
    var initial := InitialReason(policy, path);
    var directories := DirectoriesAmong(items);
    if initial.Some? then initial
    else if policy.Some? && !IsProtected(path, policy.value.never) && 0 < directories &&
            policy.value.fanOut <= directories
    then Some(FanOut)
    else None
  }

  function PlainRow(n: Node): DirectoryAggregate {
    DirectoryAggregate(n.path, n.parentPath, None,
                       Facts(n.depth, NodeTotals(n), NodeError(n), false, None, None, None))
  }

  function CollapsedError(n: Node): Option<RowError> {
    if NodeEvidence(n) == multiset{} then NodeError(n) else Some(CollapsedEvidence(NodeEvidence(n)))
  }

  function CollapsedRow(n: Node, reason: CollapseReason): DirectoryAggregate {
    var top := TopOf(n.items);
    DirectoryAggregate(n.path, n.parentPath, if top.TopChild? then Some(top.path) else None,
                       Facts(n.depth, NodeTotals(n), CollapsedError(n), true, Some(reason),
                             Some(NodeTotals(n).dirCount), if top.TopChild? then Some(top.diskBytes) else None))
  }

  /** Only a directory that was listed can collapse. */
  function Reason(policy: Option<CollapsePolicy>, n: Node): Option<CollapseReason> {
    if n.fate.Listed? then ReasonFor(policy, n.path, n.items) else None
  }

  function NodeRow(policy: Option<CollapsePolicy>, n: Node): DirectoryAggregate {
    match Reason(policy, n)
    case None => PlainRow(n)
    case Some(reason) => CollapsedRow(n, reason)
  }

  function ItemRows(policy: Option<CollapsePolicy>, item: Item): seq<DirectoryAggregate>
    decreases item
  {
    match item
    case Plain(_) => []
    case Child(_, node) => NodeRows(policy, node)
  }

  function ItemsRows(policy: Option<CollapsePolicy>, items: seq<Item>): seq<DirectoryAggregate>
    decreases items
  {
    if |items| == 0 then []
    else ItemsRows(policy, items[..|items| - 1]) + ItemRows(policy, items[|items| - 1])
  }

  /** The rows of a subtree in post-order; a collapsed directory stands for all of them. */
  function NodeRows(policy: Option<CollapsePolicy>, n: Node): seq<DirectoryAggregate>
    decreases n
  {
    if Reason(policy, n).Some? then [NodeRow(policy, n)]
    else ItemsRows(policy, n.items) + [NodeRow(policy, n)]
  }
}
