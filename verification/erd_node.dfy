/**
 * The tree node of `src/fs/erdtree/node.rs`, the one the aggregation pipeline builds.
 * Its `children` start unset and are attached once, by the assembler.
 */
module ErdNode {
  import opened Wrappers
  import opened Paths
  import opened Ansi
  import opened Entries
  import opened Icons

  /** `Option<Vec<Node>>`: `Unset` until the assembler attaches a bucket. */
  datatype Children = Unset | Set(nodes: seq<Node>)

  datatype Node = Node(
    depth: nat,
    fileSize: Option<nat>,
    children: Children,
    fileName: string,
    fileType: Option<FileType>,
    inode: Option<Inode>,
    path: Path,
    showIcon: bool,
    style: Style,
    symlinkTarget: Option<Path>,
    symlinkTargetStyle: Style)
  {
    /** A node whose file type could not be read is not a directory. */
    predicate IsDir()
    {
      fileType == Some(Dir)
    }

    predicate IsSymlink()
    {
      symlinkTarget.Some?
    }

    /** `parent_path_buf`: a copy of the path, popped once. */
    function ParentPathBuf(): (r: Option<Path>)
      ensures r.None? <==> |path.components| == 0
      ensures r.Some? ==> r.value.absolute == path.absolute
      ensures r.Some? ==> r.value.components + [path.components[|path.components| - 1]] == path.components
    {
      Parent(path)
    }

    /** `set_children`: attaches `cs` and leaves every other field as it was. */
    function SetChildren(cs: seq<Node>): (r: Node)
      ensures r.children == Set(cs)
      ensures r.(children := children) == this
    {
      this.(children := Set(cs))
    }

    /** `set_file_size`. */
    function SetFileSize(size: nat): (r: Node)
      ensures r.fileSize == Some(size)
      ensures r.(fileSize := fileSize) == this
    {
      this.(fileSize := Some(size))
    }

    /** In this version the "target file name" of a symlink is the whole target path. */
    function SymlinkTargetFileName(): (r: Option<string>)
      ensures r.Some? <==> IsSymlink()
      ensures r.Some? ==> r.value == Paths.Display(symlinkTarget.value)
    {
      match symlinkTarget
      case None => None
      case Some(t) => Some(Paths.Display(t))
    }

    /** `get_icon`: none when icons are off; otherwise the first icon found by the
        extension of the target (for a symlink) or of the path, then by file type, then by
        the target text or file name, painted with the node's style; otherwise the
        unpainted default icon. */
    function GetIcon(icons: IconTable): (r: Option<string>)
      ensures r.None? <==> !showIcon
      ensures r.Some? ==> match IconChoice(icons)
                          case Some(i) => r.value == Paint(style, i)
                          case None => r.value == icons.defaultIcon
    {
      if !showIcon then None
      else
        match IconChoice(icons)
        case Some(i) => Some(Paint(style, i))
        case None => Some(icons.defaultIcon)
    }

    /** The icon found by the lookups, extension first, before painting. */
    function IconChoice(icons: IconTable): Option<string>
    {
      ExtensionFirst(icons, Extension(symlinkTarget.GetOr(path)), fileType, SymlinkTargetFileName().GetOr(fileName))
    }

    /** `stylize_link_name`: `name -> target` for a symlink, each half in its own style. */
    function StylizeLinkName(): (r: Option<string>)
      ensures r.Some? <==> IsSymlink()
      ensures r.Some? ==> r.value == Paint(style, fileName) + " -> " + Paint(symlinkTargetStyle, Paths.Display(symlinkTarget.value))
    {
      match SymlinkTargetFileName()
      case None => None
      case Some(name) => Some(Paint(style, fileName) + " -> " + Paint(symlinkTargetStyle, name))
    }

    /** The name column: the link form for a symlink, the painted file name otherwise. */
    function StyledName(): string
    {
      StylizeLinkName().GetOr(Paint(style, fileName))
    }

    /** The size column of `Display`: the formatted size in parentheses, or nothing. */
    function SizeText(fmtSize: nat -> string): (r: string)
      ensures fileSize.None? <==> r == ""
      ensures fileSize.Some? ==>
        |r| >= 2 && r[0] == '(' && r[|r| - 1] == ')' && r[1..|r| - 1] == fmtSize(fileSize.value)
    {
      match fileSize
      case None => ""
      case Some(s) => "(" + fmtSize(s) + ")"
    }

    /** `Display for Node`: the icon, one space only when there is an icon, the name, a
        space, and the size column; with no size the line ends in that space. */
    function Display(icons: IconTable, fmtSize: nat -> string): (r: string)
      ensures GetIcon(icons).None? ==> r == StyledName() + " " + SizeText(fmtSize)
      ensures GetIcon(icons).Some? ==> r == GetIcon(icons).value + " " + StyledName() + " " + SizeText(fmtSize)
    {
      DisplayLine(GetIcon(icons), StyledName(), SizeText(fmtSize))
    }
  }

  /** The `Display` layout: the icon, then padding of one space after an icon and none
      without one, the name, a space, the size column. */
  function DisplayLine(icon: Option<string>, name: string, size: string): (r: string)
    ensures icon.None? ==> r == name + " " + size
    ensures icon.Some? ==> r == icon.value + " " + name + " " + size
  {
    var (glyph, padding) := match icon case Some(i) => (i, 1) case None => ("", 0);
    var pad := Text.Spaces(padding);
    assert pad == if padding == 1 then " " else "";
    glyph + pad + name + " " + size
  }

  /** `From<NodePrecursor> for Node`: a fresh node with no children, its name and symlink
      data from the entry, and a size only for a regular file with readable metadata. */
  function FromEntry(e: Entry, du: DiskUsage, showIcon: bool): (n: Node)
    ensures n.children == Unset && n.depth == e.depth && n.path == e.path
    ensures n.IsSymlink() ==> e.pathIsSymlink
    ensures n.fileSize.Some? ==> e.fileType == Some(File) && e.metadata.Some?
    ensures e.fileType == Some(File) && e.metadata.Some? && du == Logical ==> n.fileSize.Some?
    ensures !n.IsDir() || n.fileSize.None?
  {
    Node(
      e.depth,
      ConstructionSize(e, du),
      Unset,
      EntryFileName(e),
      e.fileType,
      match e.metadata case None => None case Some(md) => md.inode,
      e.path,
      showIcon,
      e.lsStyle.GetOr(Plain),
      SymlinkTarget(e),
      TargetStyle(e))
  }

  /** With no size the line still ends in the space after the name. */
  lemma DisplayTrailingSpace(n: Node, icons: IconTable, fmtSize: nat -> string)
    requires n.fileSize.None?
    ensures |n.Display(icons, fmtSize)| > 0
    ensures n.Display(icons, fmtSize)[|n.Display(icons, fmtSize)| - 1] == ' '
  {
    var r := n.Display(icons, fmtSize);
    var pre := if n.GetIcon(icons).Some? then n.GetIcon(icons).value + " " + n.StyledName() else n.StyledName();
    assert r == pre + " ";
  }

  /** An extension icon wins over every other source; without one, a file-type icon wins
      over a name icon. */
  lemma IconPriority(n: Node, icons: IconTable)
    requires n.showIcon
    ensures ByExtension(icons, Extension(n.symlinkTarget.GetOr(n.path))).Some? ==>
      n.GetIcon(icons) == Some(Paint(n.style, ByExtension(icons, Extension(n.symlinkTarget.GetOr(n.path))).value))
    ensures ByExtension(icons, Extension(n.symlinkTarget.GetOr(n.path))).None? && ByFileType(icons, n.fileType).Some? ==>
      n.GetIcon(icons) == Some(Paint(n.style, ByFileType(icons, n.fileType).value))
  {
  }

  /** The name icon of a symlink is looked up by the full target text, so a link to
      `/etc/Makefile` does not get the `Makefile` icon that a link to `Makefile` gets. */
  lemma IconNameUsesWholeTarget(n: Node, icons: IconTable)
    requires n.showIcon && n.IsSymlink() && ByFileType(icons, n.fileType).None?
    requires Extension(n.symlinkTarget.value).None?
    ensures n.GetIcon(icons) ==
      if Paths.Display(n.symlinkTarget.value) in icons.byFileName
      then Some(Paint(n.style, icons.byFileName[Paths.Display(n.symlinkTarget.value)]))
      else Some(icons.defaultIcon)
  {
  }
}
