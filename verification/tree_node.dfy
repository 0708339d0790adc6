/**
 * The second `Node` generation (src/render/tree/node.rs): children are a plain list, empty
 * until set; sizes can be suppressed at construction; a symlink's "target file name" is
 * the last component of its target; and directories with nothing beneath them can be
 * pruned away.
 */
module TreeNode {
  import opened Wrappers
  import opened Paths
  import opened Ansi
  import opened Entries
  import opened Icons
  import opened Sorting
  import opened NodeLayout

  datatype Node = Node(
    depth: nat,
    fileSize: Option<nat>,
    children: seq<Node>,
    fileName: string,
    fileType: Option<FileType>,
    inode: Option<Inode>,
    path: Path,
    showIcon: bool,
    style: Style,
    symlinkTarget: Option<Path>,
    symlinkTargetStyle: Style)
  {
    predicate IsDir()
    {
      fileType == Some(Dir)
    }

    predicate IsSymlink()
    {
      symlinkTarget.Some?
    }

    predicate HasChildren()
    {
      |children| > 0
    }

    /** `set_children`: replaces the list and nothing else. */
    function SetChildren(cs: seq<Node>): (r: Node)
      ensures r.children == cs && r.HasChildren() == (|cs| > 0)
      ensures r.(children := children) == this
    {
      this.(children := cs)
    }

    /** `sort_children`: a stable sort of the children by `le`. */
    function SortChildren(le: (Node, Node) -> bool): (r: Node)
      ensures multiset(r.children) == multiset(children)
      ensures TotalPreorder(le) ==> Sorted(le, r.children)
      ensures r.(children := children) == this
    {
      SortSortedIfPreorder(le, children);
      this.(children := Sort(le, children))
    }

    /** `parent_path_buf`: a copy of the path, popped once. */
    function ParentPathBuf(): (r: Option<Path>)
      ensures r.None? <==> |path.components| == 0
      ensures r.Some? ==> r.value.absolute == path.absolute
      ensures r.Some? ==> r.value.components + [path.components[|path.components| - 1]] == path.components
    {
      Parent(path)
    }

    /** The final component of the symlink target, if there is a target and it has one. */
    function SymlinkTargetFileName(): (r: Option<string>)
      ensures r.Some? <==> IsSymlink() && FileName(symlinkTarget.value).Some?
      ensures r.Some? ==>
        (|symlinkTarget.value.components| > 0 && r.value == symlinkTarget.value.components[|symlinkTarget.value.components| - 1])
    {
      match symlinkTarget
      case None => None
      case Some(t) => FileName(t)
    }

    /** The icon found by the lookups, extension first, before painting. */
    function IconChoice(icons: IconTable): Option<string>
    {
      ExtensionFirst(icons, Extension(symlinkTarget.GetOr(path)), fileType, SymlinkTargetFileName().GetOr(fileName))
    }

    /** `get_icon`: none when icons are off; otherwise the first lookup hit painted with the
        node's style, or the unpainted default icon. */
    function GetIcon(icons: IconTable): (r: Option<string>)
      ensures r.None? <==> !showIcon
      ensures r.Some? ==> match IconChoice(icons)
                          case Some(i) => r.value == Paint(style, i)
                          case None => r.value == icons.defaultIcon
    {
      if !showIcon then None
      else
        match IconChoice(icons)
        case Some(i) => Some(Paint(style, i))
        case None => Some(icons.defaultIcon)
    }

    /** `stylize_link_name`: `name -> target name`, only when the target has a file name. */
    function StylizeLinkName(): (r: Option<string>)
      ensures r.Some? <==> SymlinkTargetFileName().Some?
      ensures r.Some? ==> r.value == Paint(style, fileName) + " -> " + Paint(symlinkTargetStyle, SymlinkTargetFileName().value)
    {
      match SymlinkTargetFileName()
      case None => None
      case Some(name) => Some(Paint(style, fileName) + " -> " + Paint(symlinkTargetStyle, name))
    }

    function StyledName(): string
    {
      StylizeLinkName().GetOr(Paint(style, fileName))
    }

    /** `display` at either size location. */
    function Display(loc: SizeLocation, prefix: string, icons: IconTable, fmt: (nat, bool) -> string, emptyString: string): (r: string)
      ensures |r| == |prefix| + |IconColumn(GetIcon(icons))| + |StyledName()| + 1 + |SizeColumn(loc, fileSize, fmt, emptyString)|
      ensures loc == Right ==> r[..|prefix|] == prefix
      ensures loc == Right && fileSize.None? ==> r[|r| - 1] == ' '
      ensures loc == Left ==> r[..|SizeColumn(loc, fileSize, fmt, emptyString)|] == SizeColumn(loc, fileSize, fmt, emptyString)
    {
      Layout(loc, prefix, GetIcon(icons), StyledName(), SizeColumn(loc, fileSize, fmt, emptyString))
    }
  }

  /** `From<(&DirEntry, &Context)>`: no children, and a size only when sizes are not
      suppressed and the entry is a regular file with readable metadata. */
  function FromEntry(e: Entry, du: DiskUsage, showIcon: bool, suppressSize: bool): (n: Node)
    ensures n.children == [] && n.depth == e.depth && n.path == e.path
    ensures n.fileSize.Some? ==> !suppressSize && e.fileType == Some(File) && e.metadata.Some?
    ensures !suppressSize && e.fileType == Some(File) && e.metadata.Some? && du == Logical ==> n.fileSize.Some?
    ensures n.IsSymlink() ==> e.pathIsSymlink
  {
    Node(
      e.depth,
      if suppressSize then None else ConstructionSize(e, du),
      [],
      EntryFileName(e),
      e.fileType,
      match e.metadata case None => None case Some(md) => md.inode,
      e.path,
      showIcon,
      e.lsStyle.GetOr(Plain),
      SymlinkTarget(e),
      TargetStyle(e))
  }

  // ---------------------------------------------------------------------------------
  // Pruning.

  /** `prune_directories`: prunes the children and keeps the receiver itself. */
  function Prune(n: Node): (r: Node)
    ensures r.(children := n.children) == n
    ensures |r.children| <= |n.children|
    decreases n
  {
    n.(children := PruneAll(n.children))
  }

  /** The `retain_mut` over a list of children: a directory without children is dropped,
      one with children is pruned and kept only if something is left; anything else is
      kept as it is. */
  function PruneAll(cs: seq<Node>): (r: seq<Node>)
    ensures |r| <= |cs|
    decreases cs
  {
    if |cs| == 0 then []
    else
      var c := cs[0];
      var rest := PruneAll(cs[1..]);
      if c.IsDir() then
        if c.HasChildren() then
          var pc := Prune(c);
          if pc.HasChildren() then [pc] + rest else rest
        else rest
      else [c] + rest
  }

  /** Reference definition: some non-directory lies somewhere beneath `cs`. */
  predicate AnyNonDir(cs: seq<Node>)
    decreases cs
  {
    |cs| > 0 && (!cs[0].IsDir() || AnyNonDir(cs[0].children) || AnyNonDir(cs[1..]))
  }

  /** A child survives pruning when it is not a directory or has a non-directory beneath it. */
  predicate Survives(c: Node)
  {
    !c.IsDir() || AnyNonDir(c.children)
  }

  /** What the pruning makes of a surviving child. */
  function Pruned(c: Node): Node
  {
    if c.IsDir() then Prune(c) else c
  }

  /** Reference definition: the survivors, in order, each pruned. */
  function Survivors(cs: seq<Node>): seq<Node>
  {
    if |cs| == 0 then []
    else (if Survives(cs[0]) then [Pruned(cs[0])] else []) + Survivors(cs[1..])
  }

  /** Pruning leaves something exactly when there is a non-directory beneath. */
  lemma {:induction false} PruneAllNonEmpty(cs: seq<Node>)
    ensures |PruneAll(cs)| > 0 <==> AnyNonDir(cs)
    decreases cs
  {
    if |cs| > 0 {
      PruneAllNonEmpty(cs[1..]);
      PruneAllNonEmpty(cs[0].children);
    }
  }

  /** Pruning keeps exactly the children with a non-directory beneath them (and every
      non-directory), in their original order. */
  lemma {:induction false} PruneAllIsSurvivors(cs: seq<Node>)
    ensures PruneAll(cs) == Survivors(cs)
    decreases cs
  {
    if |cs| > 0 {
      PruneAllIsSurvivors(cs[1..]);
      PruneAllNonEmpty(cs[0].children);
    }
  }

  /** The non-directories of a list, in order. */
  function Files(cs: seq<Node>): (r: seq<Node>)
    ensures forall i :: 0 <= i < |r| ==> !r[i].IsDir()
  {
    if |cs| == 0 then [] else (if cs[0].IsDir() then [] else [cs[0]]) + Files(cs[1..])
  }

  /** Pruning never removes or reorders a non-directory child. */
  lemma {:induction false} PruneKeepsFiles(cs: seq<Node>)
    ensures Files(PruneAll(cs)) == Files(cs)
    decreases |cs|
  {
    if |cs| > 0 {
      PruneKeepsFiles(cs[1..]);
      var rest := PruneAll(cs[1..]);
      if cs[0].IsDir() {
        if cs[0].HasChildren() && Prune(cs[0]).HasChildren() {
          assert ([Prune(cs[0])] + rest)[1..] == rest;
        }
      } else {
        assert ([cs[0]] + rest)[1..] == rest;
      }
    }
  }

  /** Every directory anywhere below has at least one child. */
  predicate NoEmptyDirs(cs: seq<Node>)
    decreases cs
  {
    forall i :: 0 <= i < |cs| ==> (cs[i].IsDir() ==> cs[i].HasChildren()) && NoEmptyDirs(cs[i].children)
  }

  /** Non-directories carry no children: the pruning never descends into them. */
  predicate FilesAreLeaves(cs: seq<Node>)
    decreases cs
  {
    forall i :: 0 <= i < |cs| ==> (!cs[i].IsDir() ==> cs[i].children == []) && FilesAreLeaves(cs[i].children)
  }

  lemma TailFilesAreLeaves(cs: seq<Node>)
    requires |cs| > 0 && FilesAreLeaves(cs)
    ensures FilesAreLeaves(cs[1..])
  {
    forall i | 0 <= i < |cs[1..]|
      ensures (!cs[1..][i].IsDir() ==> cs[1..][i].children == []) && FilesAreLeaves(cs[1..][i].children)
    {
      assert cs[1..][i] == cs[i + 1];
    }
  }

  lemma ConsNoEmptyDirs(c: Node, rest: seq<Node>)
    requires c.IsDir() ==> c.HasChildren()
    requires NoEmptyDirs(c.children) && NoEmptyDirs(rest)
    ensures NoEmptyDirs([c] + rest)
  {
    var r := [c] + rest;
    forall i | 0 <= i < |r|
      ensures (r[i].IsDir() ==> r[i].HasChildren()) && NoEmptyDirs(r[i].children)
    {
      if i > 0 {
        assert r[i] == rest[i - 1];
      }
    }
  }

  /** After pruning no directory below is empty, however deep. */
  lemma {:induction false} PruneAllNoEmptyDirs(cs: seq<Node>)
    requires FilesAreLeaves(cs)
    ensures NoEmptyDirs(PruneAll(cs))
    decreases cs
  {
    if |cs| > 0 {
      TailFilesAreLeaves(cs);
      PruneAllNoEmptyDirs(cs[1..]);
      var c := cs[0];
      if c.IsDir() && c.HasChildren() {
        PruneAllNoEmptyDirs(c.children);
        if Prune(c).HasChildren() {
          ConsNoEmptyDirs(Prune(c), PruneAll(cs[1..]));
        }
      } else if !c.IsDir() {
        ConsNoEmptyDirs(c, PruneAll(cs[1..]));
      }
    }
  }

  /** A list with no empty directory below is left as it is. */
  lemma {:induction false} PruneAllFixed(cs: seq<Node>)
    requires NoEmptyDirs(cs)
    ensures PruneAll(cs) == cs
    decreases cs
  {
    if |cs| > 0 {
      assert NoEmptyDirs(cs[1..]) by {
        forall i | 0 <= i < |cs[1..]|
          ensures (cs[1..][i].IsDir() ==> cs[1..][i].HasChildren()) && NoEmptyDirs(cs[1..][i].children)
        {
          assert cs[1..][i] == cs[i + 1];
        }
      }
      PruneAllFixed(cs[1..]);
      PruneAllFixed(cs[0].children);
      assert cs == [cs[0]] + cs[1..];
    }
  }

  /** The shape pruning leaves: every directory below has children and is itself in that
      shape. What sits beneath a non-directory is not looked at. */
  predicate PrunedForm(cs: seq<Node>)
    decreases cs
  {
    forall i :: 0 <= i < |cs| ==> cs[i].IsDir() ==> cs[i].HasChildren() && PrunedForm(cs[i].children)
  }

  lemma ConsPrunedForm(c: Node, rest: seq<Node>)
    requires c.IsDir() ==> c.HasChildren() && PrunedForm(c.children)
    requires PrunedForm(rest)
    ensures PrunedForm([c] + rest)
  {
    var r := [c] + rest;
    forall i | 0 <= i < |r| && r[i].IsDir()
      ensures r[i].HasChildren() && PrunedForm(r[i].children)
    {
      if i > 0 {
        assert r[i] == rest[i - 1];
      }
    }
  }

  /** Whatever the tree, pruning leaves it in pruned shape. */
  lemma {:induction false} PruneAllPrunedForm(cs: seq<Node>)
    ensures PrunedForm(PruneAll(cs))
    decreases cs
  {
    if |cs| > 0 {
      PruneAllPrunedForm(cs[1..]);
      var c := cs[0];
      if c.IsDir() && c.HasChildren() {
        PruneAllPrunedForm(c.children);
        if Prune(c).HasChildren() {
          ConsPrunedForm(Prune(c), PruneAll(cs[1..]));
        }
      } else if !c.IsDir() {
        ConsPrunedForm(c, PruneAll(cs[1..]));
      }
    }
  }

  /** A list in pruned shape is left as it is. */
  lemma {:induction false} PrunedFormFixed(cs: seq<Node>)
    requires PrunedForm(cs)
    ensures PruneAll(cs) == cs
    decreases cs
  {
    if |cs| > 0 {
      assert PrunedForm(cs[1..]) by {
        forall i | 0 <= i < |cs[1..]| && cs[1..][i].IsDir()
          ensures cs[1..][i].HasChildren() && PrunedForm(cs[1..][i].children)
        {
          assert cs[1..][i] == cs[i + 1];
        }
      }
      PrunedFormFixed(cs[1..]);
      if cs[0].IsDir() {
        PrunedFormFixed(cs[0].children);
      }
      assert cs == [cs[0]] + cs[1..];
    }
  }

  /** Pruning keeps the receiver, and a second pruning changes nothing, on every tree. */
  lemma PruneIdempotent(n: Node)
    ensures Prune(Prune(n)) == Prune(n)
  {
    PruneAllPrunedForm(n.children);
    PrunedFormFixed(Prune(n).children);
  }

  /** When non-directories carry no children, as in every tree the nodes are built into,
      no directory anywhere below a pruned node is empty. */
  lemma PruneLeavesNoEmptyDirs(n: Node)
    requires FilesAreLeaves(n.children)
    ensures NoEmptyDirs(Prune(n).children)
  {
    PruneAllNoEmptyDirs(n.children);
  }
}
