/**
 * The third `Node` generation (src/render/tree/node/mod.rs), stored in an arena so it holds
 * no children itself. It looks icons up by file type before extension, paints an icon
 * with the foreground colour alone, and can name its file type the way `ls -l` does.
 */
module ArenaNode {
  import opened Wrappers
  import opened Paths
  import opened Ansi
  import opened Entries
  import opened Icons
  import opened NodeLayout

  datatype Node = Node(
    depth: nat,
    fileSize: Option<nat>,
    fileName: string,
    fileType: Option<FileType>,
    inode: Option<Inode>,
    path: Path,
    showIcon: bool,
    style: Style,
    symlinkTarget: Option<Path>,
    symlinkTargetStyle: Style)
  {
    predicate IsDir()
    {
      fileType == Some(Dir)
    }

    predicate IsSymlink()
    {
      symlinkTarget.Some?
    }

    /** `parent_path`: `Path::parent`. */
    function ParentPath(): (r: Option<Path>)
      ensures r.None? <==> |path.components| == 0
      ensures r.Some? ==> r.value.absolute == path.absolute
      ensures r.Some? ==> r.value.components + [path.components[|path.components| - 1]] == path.components
    {
      Parent(path)
    }

    /** The final component of the symlink target, if there is a target and it has one. */
    function SymlinkTargetFileName(): (r: Option<string>)
      ensures r.Some? <==> IsSymlink() && FileName(symlinkTarget.value).Some?
      ensures r.Some? ==>
        (|symlinkTarget.value.components| > 0 && r.value == symlinkTarget.value.components[|symlinkTarget.value.components| - 1])
    {
      match symlinkTarget
      case None => None
      case Some(t) => FileName(t)
    }

    /** `stylize_icon`: the icon in the style's foreground colour alone, or unchanged when
        the style has no foreground. */
    function StylizeIcon(icon: string): (r: string)
      ensures style.foreground.None? ==> r == icon
      ensures r == Paint(Style(style.foreground, ""), icon)
      ensures Unpaint(Style(style.foreground, ""), r) == icon
    {
      UnpaintPaint(Style(style.foreground, ""), icon);
      match style.foreground
      case None => icon
      case Some(c) => PaintColour(c, icon)
    }

    /** The icon found by the lookups, file type first, before painting. */
    function IconChoice(icons: IconTable): Option<string>
    {
      TypeFirst(icons, Extension(symlinkTarget.GetOr(path)), fileType, SymlinkTargetFileName().GetOr(fileName))
    }

    /** `get_icon`: none when icons are off; otherwise the first lookup hit in the
        foreground colour, or the unpainted default icon. */
    function GetIcon(icons: IconTable): (r: Option<string>)
      ensures r.None? <==> !showIcon
      ensures r.Some? ==> match IconChoice(icons)
                          case Some(i) => r.value == StylizeIcon(i)
                          case None => r.value == icons.defaultIcon
    {
      if !showIcon then None
      else
        match IconChoice(icons)
        case Some(i) => Some(StylizeIcon(i))
        case None => Some(icons.defaultIcon)
    }

    /** `stylize_link_name`: `name -> target name`, only when the target has a file name. */
    function StylizeLinkName(): (r: Option<string>)
      ensures r.Some? <==> SymlinkTargetFileName().Some?
      ensures r.Some? ==> r.value == Paint(style, fileName) + " -> " + Paint(symlinkTargetStyle, SymlinkTargetFileName().value)
    {
      match SymlinkTargetFileName()
      case None => None
      case Some(name) => Some(Paint(style, fileName) + " -> " + Paint(symlinkTargetStyle, name))
    }

    function StyledName(): string
    {
      StylizeLinkName().GetOr(Paint(style, fileName))
    }

    /** `display`, with the size location chosen by the caller's context. */
    function Display(loc: SizeLocation, prefix: string, icons: IconTable, fmt: (nat, bool) -> string, emptyString: string): (r: string)
      ensures |r| == |prefix| + |IconColumn(GetIcon(icons))| + |StyledName()| + 1 + |SizeColumn(loc, fileSize, fmt, emptyString)|
      ensures loc == Right ==> r[..|prefix|] == prefix
      ensures loc == Left ==> r[..|SizeColumn(loc, fileSize, fmt, emptyString)|] == SizeColumn(loc, fileSize, fmt, emptyString)
    {
      Layout(loc, prefix, GetIcon(icons), StyledName(), SizeColumn(loc, fileSize, fmt, emptyString))
    }
  }

  /** `file_type_identifier` on unix: the `ls -l` letter of each kind `ls` knows. */
  function UnixIdentifier(ft: Option<FileType>): (r: Option<string>)
    ensures r.Some? ==> |r.value| == 1
    ensures r.None? <==> ft.None? || ft == Some(Unknown)
  {
    match ft
    case None => None
    case Some(Dir) => Some("d")
    case Some(File) => Some("-")
    case Some(Symlink) => Some("l")
    case Some(Fifo) => Some("p")
    case Some(Socket) => Some("s")
    case Some(CharDevice) => Some("c")
    case Some(BlockDevice) => Some("b")
    case Some(Unknown) => None
  }

  /** `file_type_identifier` elsewhere: only directories, files and symlinks have a letter. */
  function PortableIdentifier(ft: Option<FileType>): (r: Option<string>)
    ensures r.Some? <==> ft == Some(Dir) || ft == Some(File) || ft == Some(Symlink)
  {
    match ft
    case Some(Dir) => Some("d")
    case Some(File) => Some("-")
    case Some(Symlink) => Some("l")
    case _ => None
  }

  /** Reference definition: the kind an `ls -l` letter stands for. */
  function KindOfLetter(s: string): Option<FileType>
  {
    if s == "d" then Some(Dir)
    else if s == "-" then Some(File)
    else if s == "l" then Some(Symlink)
    else if s == "p" then Some(Fifo)
    else if s == "s" then Some(Socket)
    else if s == "c" then Some(CharDevice)
    else if s == "b" then Some(BlockDevice)
    else None
  }

  /** The letter identifies the kind: reading it back gives the kind, so no two kinds share
      a letter. */
  lemma UnixIdentifierInverse(ft: Option<FileType>)
    ensures UnixIdentifier(ft).Some? ==> KindOfLetter(UnixIdentifier(ft).value) == ft
    ensures forall s :: KindOfLetter(s).Some? ==> UnixIdentifier(KindOfLetter(s)) == Some(s)
  {
  }

  /** Where both platforms have a letter they agree; unix alone names fifos, sockets and
      devices. */
  lemma IdentifiersAgree(ft: Option<FileType>)
    ensures PortableIdentifier(ft).Some? ==> UnixIdentifier(ft) == PortableIdentifier(ft)
    ensures PortableIdentifier(ft).None? && UnixIdentifier(ft).Some? <==>
      ft == Some(Fifo) || ft == Some(Socket) || ft == Some(CharDevice) || ft == Some(BlockDevice)
  {
  }

  /** `From<(&DirEntry, &Context)>`: a size only when sizes are not suppressed and the
      entry is a regular file with readable metadata. */
  function FromEntry(e: Entry, du: DiskUsage, showIcon: bool, suppressSize: bool): (n: Node)
    ensures n.depth == e.depth && n.path == e.path
    ensures n.fileSize.Some? ==> !suppressSize && e.fileType == Some(File) && e.metadata.Some?
    ensures !suppressSize && e.fileType == Some(File) && e.metadata.Some? && du == Logical ==> n.fileSize.Some?
    ensures n.IsSymlink() ==> e.pathIsSymlink
  {
    Node(
      e.depth,
      if suppressSize then None else ConstructionSize(e, du),
      EntryFileName(e),
      e.fileType,
      match e.metadata case None => None case Some(md) => md.inode,
      e.path,
      showIcon,
      e.lsStyle.GetOr(Plain),
      SymlinkTarget(e),
      TargetStyle(e))
  }

  /** A file-type icon wins over every other source; without one, an extension icon wins
      over a name icon. */
  lemma IconPriority(n: Node, icons: IconTable)
    requires n.showIcon
    ensures ByFileType(icons, n.fileType).Some? ==>
      n.GetIcon(icons) == Some(n.StylizeIcon(ByFileType(icons, n.fileType).value))
    ensures ByFileType(icons, n.fileType).None? && ByExtension(icons, Extension(n.symlinkTarget.GetOr(n.path))).Some? ==>
      n.GetIcon(icons) == Some(n.StylizeIcon(ByExtension(icons, Extension(n.symlinkTarget.GetOr(n.path))).value))
  {
  }
}
