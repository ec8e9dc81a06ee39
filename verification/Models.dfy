/** Entities that several components share: optional values, byte paths, and the
    directory row that a scan produces and the store keeps. */
module Models {

  datatype Option<+T> = None | Some(value: T)

  newtype Byte = x: int | 0 <= x < 256

  /** Paths are raw bytes: file names need not be valid UTF-8. */
  type Bytes = seq<Byte>

  type SnapshotId = int

  type PathId = int

  /** A nullable id column. */
  datatype NullableId = Null | Id(id: int)

  datatype Status = Running | Complete | Partial | Failed

  /** Names of regular files with several links: all of them, those whose inode was counted
      before, and the disk bytes of the latter and of the former. */
  datatype Hardlinks = Hardlinks(fileCount: int, duplicateCount: int, duplicateDiskBytes: int, firstSeenDiskBytes: int)
  {
    function Plus(other: Hardlinks): Hardlinks {
      Hardlinks(fileCount + other.fileCount, duplicateCount + other.duplicateCount,
                duplicateDiskBytes + other.duplicateDiskBytes, firstSeenDiskBytes + other.firstSeenDiskBytes)
    }
  }

  /** The additive columns of a directory row. */
  datatype Totals = Totals(apparentBytes: int, diskBytes: int, fileCount: int, dirCount: int, hardlinks: Hardlinks)
  {
    /** A child counts itself among the directories of its parent. */
    function PlusChild(child: Totals): Totals {
      Totals(apparentBytes + child.apparentBytes, diskBytes + child.diskBytes, fileCount + child.fileCount,
             dirCount + child.dirCount + 1, hardlinks.Plus(child.hardlinks))
    }
  }

  const NO_HARDLINKS := Hardlinks(0, 0, 0, 0)

  const ZERO_TOTALS := Totals(0, 0, 0, 0, NO_HARDLINKS)

  datatype CollapseReason = KnownNoise | FanOut

  /** What went wrong, or was skipped, below a directory. */
  datatype Kind =
    | PermissionDenied
    | MissingPath
    | NotADirectory
    | OsError
    | Excluded
    | MountSkipped
    | HardlinkLimit
    | SymlinkRoot
    | RootError
    | MountMissing

  /** Why a directory was not entered. */
  datatype SkipReason =
    | OverlayMount
    | NamespaceMount
    | FilesystemSkipped(filesystemType: string)
    | SeparateFilesystem(rootDevice: int, childDevice: int)
    | MountCycle(mountId: int)
    | DirectoryCycle(device: int, inode: int)

  /** The text of a row's error column, as the data it is formatted from. */
  datatype RowError =
    | SystemError(kind: Kind, detail: string)
    | ExcludedByConfiguration
    | NotEntered(reason: SkipReason)
    | HardlinkLimitExceeded(maxEntries: int)
    | CollapsedEvidence(counts: multiset<Kind>)
    | SymlinkedComponent
    | SymlinkedRoot
    | RootNotExamined(detail: string)
    | NoMountEntry

  /** The columns of a directory row that hold no path. */
  datatype Facts = Facts(
    depth: int,
    totals: Totals,
    error: Option<RowError>,
    collapsed: bool,
    collapseReason: Option<CollapseReason>,
    collapsedDirs: Option<int>,
    topChildDiskBytes: Option<int>)

  datatype DirectoryAggregate = DirectoryAggregate(
    path: Bytes,
    parentPath: Option<Bytes>,
    topChildPath: Option<Bytes>,
    facts: Facts)
}
