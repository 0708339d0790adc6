/**
 * What the filesystem walk hands to the `Node` constructors. Every system call the
 * constructors make (`metadata`, `read_link`, the `LS_COLORS` lookups, the physical-size
 * query) is replaced by its result, carried in an `Entry`.
 */
module Entries {
  import opened Wrappers
  import opened Paths
  import opened Ansi

  /** `std::fs::FileType`, one kind per entry. */
  datatype FileType = Dir | File | Symlink | Fifo | Socket | CharDevice | BlockDevice | Unknown

  /** Device, inode number and link count of an entry. */
  datatype Inode = Inode(dev: nat, ino: nat, nlink: nat)

  /** The metadata the walk read: the apparent length, the allocated size when it could be
      determined, and the inode identity when it could be extracted. */
  datatype Metadata = Metadata(logicalSize: nat, physicalSize: Option<nat>, inode: Option<Inode>)

  /** Which size a node reports: apparent length or blocks allocated. */
  datatype DiskUsage = Logical | Physical

  /** One walked directory entry: `readLink` is the outcome of `read_link` (`None` when it
      failed), `lsStyle` and `targetLsStyle` the `LS_COLORS` lookups for the entry and for its
      symlink target (`None` when `LS_COLORS` has no entry). */
  datatype Entry = Entry(
    depth: nat,
    path: Path,
    fileType: Option<FileType>,
    pathIsSymlink: bool,
    readLink: Option<Path>,
    metadata: Option<Metadata>,
    lsStyle: Option<Style>,
    targetLsStyle: Option<Style>)

  /** The symlink target: only a symlink has one, and only when `read_link` succeeded. */
  function SymlinkTarget(e: Entry): (r: Option<Path>)
    ensures r.Some? ==> e.pathIsSymlink && e.readLink == r
  {
    if e.pathIsSymlink then e.readLink else None
  }

  /** The file name: the last component of the path, or the whole path text when the path
      has no last component. */
  function EntryFileName(e: Entry): (r: string)
    ensures FileName(e.path).Some? ==> r == e.path.components[|e.path.components| - 1]
    ensures FileName(e.path).None? ==> r == Display(e.path)
  {
    FileName(e.path).GetOr(Display(e.path))
  }

  /** The style of the symlink target: its `LS_COLORS` style, or the plain style. */
  function TargetStyle(e: Entry): (r: Style)
    ensures SymlinkTarget(e).None? ==> r == Plain
  {
    if SymlinkTarget(e).Some? then e.targetLsStyle.GetOr(Plain) else Plain
  }

  /** The size the chosen measurement yields from readable metadata: the logical size
      always exists, the physical one may not. */
  function MeasuredSize(du: DiskUsage, md: Metadata): (r: Option<nat>)
    ensures du == Logical ==> r == Some(md.logicalSize)
    ensures du == Physical ==> r == md.physicalSize
  {
    match du
    case Logical => Some(md.logicalSize)
    case Physical => md.physicalSize
  }

  /** The size a node gets at construction: only a regular file with readable metadata is
      measured; directories get their size later, from their children. */
  function ConstructionSize(e: Entry, du: DiskUsage): (r: Option<nat>)
    ensures r.Some? ==> e.fileType == Some(File) && e.metadata.Some?
    ensures e.fileType == Some(File) && e.metadata.Some? && du == Logical ==> r.Some?
    ensures e.metadata.Some? && r.Some? ==> r == MeasuredSize(du, e.metadata.value)
  {
    if e.fileType == Some(File) && e.metadata.Some? then MeasuredSize(du, e.metadata.value)
    else None
  }
}
