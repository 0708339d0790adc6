# erdtree: tree assembly and rendering, modelled in Dafny

erdtree is a filesystem-tree viewer. A parallel walker sends one `Node` per directory
entry over a channel to a collecting thread. That thread sorts the nodes into buckets
keyed by their parent directory and sets aside the depth-0 directory as the root.
`assemble_tree` then turns the root and the buckets into a tree. Each directory's size
becomes the sum of its children's sizes, and the children are sorted stably when an
order is configured. The tree is printed in pre-order with box-drawing connectors, and
a depth limit decides which directories are expanded.

Around this pipeline sit the per-node helpers, which come in three generations of
`Node`:

- `src/fs/erdtree/node.rs`
- `src/render/tree/node.rs`
- `src/render/tree/node/mod.rs`

The helpers cover parent paths, icon choice, symlink names, the construction-time size
rule, line layout, pruning of empty directories and `ls -l` file-type letters. Next to
them are the string helpers of `style.rs` and of the long-listing grid cells in
`cell.rs`, and the two config-file tokenizers (`parse_config` and `parse`).

The model is functional. Nodes are immutable datatypes and the bucket map is a
`map<Path, seq<Node>>`. The receive loop is a fold over the sequence of nodes in the
order they arrived. Each file of the core has its own module:

| module | models |
|---|---|
| `Aggregator` | the receive loop of `Tree::traverse` |
| `Assembler` | `Tree::assemble_tree` |
| `Sorting` | the stable `sort_by` the assembler calls |
| `TreeDisplay` | `Display for Tree` |
| `ErdNode`, `TreeNode`, `ArenaNode` | the three node generations |
| `NodeLayout` | the line layout the two newer generations share |
| `LinkNames` | the symlink names of the three generations, compared with each other and with `style.rs` |
| `NodeStyle` | `style.rs` |
| `Cell` | `cell.rs` |
| `ConfigTokens`, `RenderConfig`, `ContextConfig` | the tokenizers |

Supporting modules stand in for the pieces of the Rust standard library and terminal
styling the core relies on:

- `Paths`: `Path::parent`, `file_name`, `extension`, `strip_prefix` and `display`.
- `Text`: `str::lines`, `split_ascii_whitespace`, `trim_start`, `split(' ')` and right
  alignment with `{:>w$}`.
- `Ansi`: ANSI painting.
- `Icons`: the icon lookups.
- `Entries`: what the walk reads from the filesystem.

The aggregation loop does not hold back an entry whose parent bucket does not exist yet.
It inserts an empty bucket for the parent and drops the entry. The model does the same.
As a consequence, the buckets are exact, and independent of arrival order up to the
order inside each bucket, only when every directory arrives before its descendants.
The model proves exactly that conditional statement (`Aggregator.OrderIndependent`). It
also exhibits a stream where arriving out of order loses an entry
(`Aggregator.OrphanDropped`).

## Model

| member | source | states |
|---|---|---|
| `Aggregator.Step` | src/fs/erdtree/tree/mod.rs:73-92 | One received node. A directory gets an empty bucket only if it has none, so children already collected are never overwritten. A depth-0 directory becomes the root, goes into no bucket and leaves every bucket alone. Any other node is appended to its parent's bucket when that bucket exists. Otherwise an empty bucket is made for the parent and the node is dropped. A node with no parent path fails with `ExpectedParent`. No other bucket changes. |
| `Aggregator.ReceiveRoot` | src/fs/erdtree/tree/mod.rs:80-83 | After the loop the root is the last depth-0 directory received, so a later root replaces an earlier one. |
| `Aggregator.ReceiveFailureSticks` | src/fs/erdtree/tree/mod.rs:86 | Once the loop has failed, the entries that follow change nothing: the `?` leaves the loop. |
| `Aggregator.ReceiveErrorIsExpectedParent` | src/fs/erdtree/tree/mod.rs:86 | The loop can only fail with `ExpectedParent`. |
| `Aggregator.TraverseOutcome` | src/fs/erdtree/tree/mod.rs:95-97 | The collection succeeds exactly when the loop succeeded and a root arrived. It fails with `MissingRoot` when no root arrived, and passes on the loop's `ExpectedParent` otherwise. The root returned is the last one received. |
| `Aggregator.NoRootFails` | src/fs/erdtree/tree/mod.rs:95 | A stream with no depth-0 directory fails. |
| `Aggregator.ReceiveParentsFirst` | src/fs/erdtree/tree/mod.rs:72-93 | Suppose every non-root entry's parent directory arrives before it. Then the loop succeeds, the bucket keys are exactly the paths of the directories received, and each bucket holds exactly the entries whose parent it is, in arrival order. |
| `Aggregator.TraverseParentsFirst` | src/fs/erdtree/tree/mod.rs:72-97 | The same for the whole collection: with parents first, a non-empty stream yields the last root and buckets that match the reference definitions `DirPaths` and `ChildrenOf`. |
| `Aggregator.OrderIndependent` | src/fs/erdtree/tree/mod.rs:72-97 | Take two parents-first arrival orders of the same entries, with one root. They give the same root, the same bucket keys, and each bucket the same entries up to order. |
| `Aggregator.TraverseLoop` | src/fs/erdtree/tree/mod.rs:69-97 | The `while let` loop, written as a loop over the received nodes, computes the same result as the fold. |
| `Aggregator.OrphanDropped` | src/fs/erdtree/tree/mod.rs:88-92 | Consider a root, a directory `d` and a file in `d`. The file lands in `d`'s bucket when `d` arrives first. It is discarded, and `d`'s bucket is empty, when the file arrives first. |
| `Assembler.Assemble` | src/fs/erdtree/tree/mod.rs:125-131 | A node without a bucket comes back unchanged with the buckets untouched. Otherwise its bucket is removed and becomes its children, one for one. Every bucket left over was there before, unchanged. Only children and size of the node change. The directories beneath are covered by `Assembler.AssembleDrains`. |
| `Assembler.AssembleDrains` | src/fs/erdtree/tree/mod.rs:125-141 | Assembling a directory fresh from the aggregator leaves no bucket behind for any directory of the resulting tree, at any depth: every bucket is taken when its directory is reached, so each is used at most once. |
| `Assembler.AssembleChildrenDrains` | src/fs/erdtree/tree/mod.rs:134-141 | Across a list of fresh children, no directory of any assembled child keeps a bucket in what is left over. Later children only remove more buckets. |
| `Assembler.AssembleChildren` | src/fs/erdtree/tree/mod.rs:134-141 | The children are assembled one by one. Non-directories are unchanged, every child changes at most in children and size, and the buckets only shrink. |
| `Assembler.AssembleSizeRule` | src/fs/erdtree/tree/mod.rs:132-151 | A directory takes the sum of its assembled children's sizes, a missing size counting as 0, when that sum is positive, and otherwise keeps the size it had. The sum does not change when the children are sorted. |
| `Assembler.AssembleSizes` | src/fs/erdtree/tree/mod.rs:132-145 | Assembling a directory fresh from the aggregator makes every node of the resulting tree exactly as large as the total of the childless nodes beneath it (the reference definition `LeafTotal`). |
| `Assembler.RootSizeIsTotal` | src/fs/erdtree/tree/mod.rs:118 | The assembled root's size is the total of every file in the tree. |
| `Assembler.AssembleSorted` | src/fs/erdtree/tree/mod.rs:147-151 | With a comparator that is a total preorder, the children are the stable sort of the assembled bucket. They are sorted, a permutation of the bucket, and children that tie keep their relative order. |
| `Assembler.AssembleUnsorted` | src/fs/erdtree/tree/mod.rs:147-151 | Without a comparator the children keep the order in which their bucket received them. |
| `Sorting.SortSorted` | src/fs/erdtree/tree/mod.rs:149 | The stable sort orders its input by any total preorder. |
| `Sorting.SortStable` | src/fs/erdtree/tree/mod.rs:149 | Stability: for every key, the elements tying with it appear in the same order before and after sorting. |
| `Sorting.SortSortedIdentity` | src/fs/erdtree/tree/mod.rs:149 | A sequence already sorted is left exactly as it is. |
| `Sorting.SortIdempotent` | src/fs/erdtree/tree/mod.rs:149 | Sorting twice is sorting once. |
| `TreeDisplay.ChildLines` | src/fs/erdtree/tree/mod.rs:168-210 | Each sibling list gives at least one line per sibling. The first line is the first sibling behind `└─` if it is the only one and `├─` otherwise. Every line starts with the base prefix followed by continuation segments and exactly one final connector. |
| `TreeDisplay.SiblingConnectors` | src/fs/erdtree/tree/mod.rs:176-188 | Every sibling gets a line of its own: the base prefix, then `└─` for the last sibling and `├─` for the others. |
| `TreeDisplay.ExpandedUnderContinuation` | src/fs/erdtree/tree/mod.rs:190-204 | An expanded sibling's children are printed under the base prefix plus a blank continuation after the last sibling and a vertical bar after the others. |
| `TreeDisplay.Render` | src/fs/erdtree/tree/mod.rs:158-159 | The first line is the root with an empty prefix. Every later line has a non-empty, well-formed prefix. |
| `TreeDisplay.RenderPreOrder` | src/fs/erdtree/tree/mod.rs:190-215 | When no directory reaches the depth limit, the nodes printed are the pre-order walk of the tree (the reference definition `PreOrder`). |
| `TreeDisplay.RenderDepth` | src/fs/erdtree/tree/mod.rs:159-192 | In a tree whose depths are consistent, every line's prefix has one segment per level of depth. Nothing deeper than the limit is printed, except the root's own children, which appear at any limit. The limit defaults to `usize::MAX`. |
| `TreeDisplay.LevelZero` | src/fs/erdtree/tree/mod.rs:212-215 | At depth limit 0 the output is the root followed by exactly its children, in order. |
| `TreeDisplay.OutputLineCount` | src/fs/erdtree/tree/mod.rs:163-165 | Each line is written as prefix, node text and newline. When no node's text contains a newline, the output has exactly one newline per line. |
| `ErdNode.Node.ParentPathBuf` | src/fs/erdtree/node.rs:125-133 | The path without its last component, and `None` exactly when there is no component to pop. |
| `ErdNode.Node.SetChildren` | src/fs/erdtree/node.rs:141-143 | `children` becomes `Some(list)` and nothing else changes. |
| `ErdNode.Node.SetFileSize` | src/fs/erdtree/node.rs:151-153 | `file_size` becomes the given size and nothing else changes. |
| `ErdNode.Node.SymlinkTargetFileName` | src/fs/erdtree/node.rs:111-116 | In this generation the target "file name" is the whole target path, present exactly for symlinks. |
| `ErdNode.Node.GetIcon` | src/fs/erdtree/node.rs:169-193 | `None` exactly when icons are off. Otherwise it is the first lookup hit painted in the node's style, or the unpainted default icon. |
| `ErdNode.IconPriority` | src/fs/erdtree/node.rs:174-182 | The extension icon of the target path, for a symlink, or of the node's path, wins. The file-type icon comes next. |
| `ErdNode.IconNameUsesWholeTarget` | src/fs/erdtree/node.rs:184-192 | For a symlink with no extension and no icon for its file type, the name lookup uses the full target path, falling back to the default icon. |
| `ErdNode.Node.StylizeLinkName` | src/fs/erdtree/node.rs:203-210 | For a symlink, the styled name, ` -> `, then the whole target path in the target's style. Present exactly for symlinks. |
| `ErdNode.FromEntry` | src/fs/erdtree/node.rs:238-311 | A new node has no children and keeps the entry's depth and path. Its size is set only for a regular file with readable metadata: always in logical mode, and possibly not in physical mode. Directories never get one. Only symlinks get a target. |
| `ErdNode.Node.SizeText` | src/fs/erdtree/node.rs:314-341 | The size text is empty exactly when the node has no size. Otherwise it is the formatted size between `(` and `)`. |
| `ErdNode.DisplayLine` | src/fs/erdtree/node.rs:314-341 | The line is the icon and one pad space only when there is an icon, then the name, a space and the size text. |
| `ErdNode.Node.Display` | src/fs/erdtree/node.rs:314-341 | A node's line is laid out by that rule from its icon, styled name and size text. |
| `ErdNode.DisplayTrailingSpace` | src/fs/erdtree/node.rs:314-341 | A node without a size still ends its line with the space after the name. |
| `TreeNode.Node.SetChildren` | src/render/tree/node.rs:87-99 | The children are replaced, `has_children` is exactly their non-emptiness, and nothing else changes. |
| `TreeNode.Node.SortChildren` | src/render/tree/node.rs:92-94 | The children are permuted, sorted under any total preorder, and nothing else changes. |
| `TreeNode.Node.ParentPathBuf` | src/render/tree/node.rs:157-165 | The path without its last component, and `None` exactly when there is none. |
| `TreeNode.Node.SymlinkTargetFileName` | src/render/tree/node.rs:146-149 | The target's last component, present exactly when the node is a symlink whose target has a file name. |
| `TreeNode.Node.GetIcon` | src/render/tree/node.rs:196-220 | `None` exactly when icons are off. Otherwise it is the first hit of extension, file type and name, painted in the node's style, or the unpainted default. |
| `TreeNode.Node.StylizeLinkName` | src/render/tree/node.rs:230-237 | `name -> target name`, both styled, present exactly when the target has a file name. |
| `TreeNode.Node.Display` | src/render/tree/node.rs:355-395 | The line has the width of prefix, icon column, name, one space and size column. With the size on the right it starts with the prefix, and without a size it ends in a space. With the size on the left it starts with the size. |
| `TreeNode.FromEntry` | src/render/tree/node.rs:240-319 | A new node has no children. Its size is set only when sizes are not suppressed and the entry is a regular file with metadata, and always then in logical mode. |
| `TreeNode.Prune` | src/render/tree/node.rs:102-114 | Pruning keeps the receiver and changes only its children, of which it never adds any. |
| `TreeNode.PruneAllNonEmpty` | src/render/tree/node.rs:103-113 | Something is left after pruning exactly when there is a non-directory somewhere beneath. |
| `TreeNode.PruneAllIsSurvivors` | src/render/tree/node.rs:103-113 | Pruning keeps exactly the non-directories and the directories with a non-directory beneath them, in their original order, each directory pruned in turn. |
| `TreeNode.PruneKeepsFiles` | src/render/tree/node.rs:103-113 | Pruning never removes or reorders a non-directory child. |
| `TreeNode.PruneAllNoEmptyDirs` | src/render/tree/node.rs:102-114 | After pruning, every directory anywhere below has at least one child. |
| `TreeNode.PruneAllFixed` | src/render/tree/node.rs:102-114 | A list with no empty directory anywhere is left as it is. |
| `TreeNode.PruneAllPrunedForm` | src/render/tree/node.rs:102-114 | Whatever the tree, pruning leaves every directory below with children, and each of those in the same shape. |
| `TreeNode.PrunedFormFixed` | src/render/tree/node.rs:102-114 | A list in that pruned shape is left as it is. |
| `TreeNode.PruneIdempotent` | src/render/tree/node.rs:102-114 | On every tree, pruning twice is pruning once. |
| `TreeNode.PruneLeavesNoEmptyDirs` | src/render/tree/node.rs:102-114 | No directory anywhere below a pruned node is empty. This assumes files carry no children, which holds for every tree the nodes are built into. |
| `NodeLayout.SizeColumn` | src/render/tree/node.rs:330-348 | On the right a size is shown as `(size)` and a missing one as nothing. On the left a size is shown padded and a missing one as the empty-size string. |
| `NodeLayout.IconColumn` | src/render/tree/node.rs:367-370 | The icon followed by one pad space, or nothing without an icon. |
| `NodeLayout.Layout` | src/render/tree/node.rs:377-394 | The right layout is prefix, icon column, name, space, size. The left layout is size, space, prefix, icon column, name. Both have the same width. |
| `NodeLayout.LayoutsShareBody` | src/render/tree/node.rs:377-394 | The two layouts carry the same prefix, icon and name text and differ only in where the size and its space go. |
| `NodeLayout.IconWidth` | src/render/tree/node.rs:367-370 | An icon widens the line by its own width plus one pad space. |
| `ArenaNode.Node.ParentPath` | src/render/tree/node/mod.rs:115-117 | `Path::parent`: the path without its last component, `None` exactly when there is none. |
| `ArenaNode.Node.SymlinkTargetFileName` | src/render/tree/node/mod.rs:105-107 | The target's last component, present exactly for a symlink whose target has one. |
| `ArenaNode.Node.StylizeIcon` | src/render/tree/node/mod.rs:180-184 | The icon is painted with the style's foreground colour alone. It is unchanged when there is no foreground, and unpainting gives the icon back. |
| `ArenaNode.Node.GetIcon` | src/render/tree/node/mod.rs:148-171 | `None` exactly when icons are off. Otherwise it is the first lookup hit in the foreground colour, or the unpainted default. |
| `ArenaNode.IconPriority` | src/render/tree/node/mod.rs:153-161 | In this generation the file-type icon wins, and the extension icon comes next. |
| `ArenaNode.Node.StylizeLinkName` | src/render/tree/node/mod.rs:187-194 | `name -> target name`, both styled, present exactly when the target has a file name. |
| `ArenaNode.Node.Display` | src/render/tree/node/mod.rs:212-247 | The two `write!` templates of the previous generation: prefix, icon column, name, one space and size column, with the prefix first when the size is on the right and the size column first when it is on the left. |
| `ArenaNode.UnixIdentifier` | src/render/tree/node/mod.rs:251-275 | Every kind `ls -l` knows gets a one-letter identifier. There is none for an unknown kind or a missing file type. |
| `ArenaNode.UnixIdentifierInverse` | src/render/tree/node/mod.rs:251-275 | Reading a letter back gives the kind, so no two kinds share a letter and every letter names one kind. |
| `ArenaNode.PortableIdentifier` | src/render/tree/node/mod.rs:278-293 | Off unix, only directories, regular files and symlinks have a letter. |
| `ArenaNode.IdentifiersAgree` | src/render/tree/node/mod.rs:251-293 | Where both platforms give a letter they agree. Only the unix version names fifos, sockets and devices. |
| `ArenaNode.FromEntry` | src/render/tree/node/mod.rs:296-373 | The size is set only when sizes are not suppressed and the entry is a regular file with metadata, always then in logical mode. Only symlinks get a target. |
| `Icons.ExtensionFirst` | src/fs/erdtree/node.rs:169-193 | The extension-first chain finds an icon exactly when some lookup hits, and an extension hit wins. |
| `Icons.TypeFirst` | src/render/tree/node/mod.rs:148-171 | The type-first chain finds an icon exactly when some lookup hits, and a file-type hit wins. |
| `Icons.ChainsAgree` | src/render/tree/node/mod.rs:153-161 | The two chains agree exactly when the extension or the file-type lookup misses, or both give the same glyph. |
| `Icons.ChainsDiffer` | src/render/tree/node/mod.rs:153-161 | An example where they differ: a directory named `src.rs`. |
| `Entries.EntryFileName` | src/fs/erdtree/node.rs:262-265 | The file name is the path's last component, or the whole path text when it has none. |
| `Entries.ConstructionSize` | src/fs/erdtree/node.rs:283-294 | A size only for a regular file with metadata: always in logical mode, and the physical measure, which may be missing, otherwise. |
| `LinkNames.PaintedReadsBack` | src/render/tree/node.rs:230-237 | Both names can be read back from a link name: unpainting the part before ` -> ` gives the file name, and unpainting the part after it gives the target name. |
| `LinkNames.ErdLinkName` | src/fs/erdtree/node.rs:203-210 | The first generation's link name equals the `style.rs` helper applied, with both styles, to the file name and the whole target path. It exists exactly for symlinks. |
| `LinkNames.TreeLinkName` | src/render/tree/node.rs:230-237 | The second generation's link name equals the `style.rs` helper applied, with both styles, to the file name and the target's file name. It exists exactly when the target has a file name. |
| `LinkNames.GenerationsLinkNames` | src/render/tree/node/mod.rs:187-194 | Given equal fields, the third generation's link name equals the second's. The first has one whenever the later two do. The later ones have none exactly when the target has no file name. Otherwise they show the target's last component where the first shows the whole path. |
| `LinkNames.GenerationsAgreeOnBareTarget` | src/fs/erdtree/node.rs:203-210 | For a target that is a single relative name, all three generations write the same link name. |
| `LinkNames.GenerationsDiffer` | src/fs/erdtree/node.rs:203-210 | An unstyled link `h` to `/etc/hosts` reads `h -> /etc/hosts` in the first generation and `h -> hosts` in the second and third. |
| `NodeStyle.Stylize` | src/render/tree/node/style.rs:14-22 | Without a style the name is returned unchanged. With one, unpainting the result gives the name back. |
| `NodeStyle.StylizeLinkName` | src/render/tree/node/style.rs:25-41 | With a link style, both halves are styled around ` -> `. Without one, it is plain `link -> target`. |
| `NodeStyle.LinkNameIgnoresTargetStyle` | src/render/tree/node/style.rs:36-40 | Without a link style, the target's style plays no part. |
| `NodeStyle.SymText` | src/render/tree/node/style.rs:46-50 | The mode text followed by `@` with extended attributes and by a space without. |
| `NodeStyle.PaintCharsPlain` | src/render/tree/node/style.rs:52-60 | With a theme that paints nothing, per-character painting is the text with the characters missing from the theme removed. |
| `NodeStyle.StyleSymPermissions` | src/render/tree/node/style.rs:45-64 | Without a theme the symbolic text is returned unchanged. With one, each character is painted with its theme style. |
| `NodeStyle.SymPermissionsMarker` | src/render/tree/node/style.rs:45-64 | With a theme, the output is the themed mode text followed by the themed marker, or by nothing when the theme has no entry for the marker. |
| `NodeStyle.Octal04` | src/render/tree/node/style.rs:69 | `{:04o}` gives octal digits, at least four of them, ending in the unpadded numeral. |
| `NodeStyle.Octal04RoundTrip` | src/render/tree/node/style.rs:69 | Reading the padded numeral back as octal gives the mode. |
| `NodeStyle.StyleOctalPermissions` | src/render/tree/node/style.rs:68-75 | The padded octal numeral, painted when a style is set. Unpainted, it still reads back as the mode. |
| `Cell.PlaceholderWidth` | src/render/grid/cell.rs:281-291 | For a byte metric the width is the column width plus 3 (SI, human), 4 (binary, human), 1 (SI) or 2 (binary). For any other metric it is exactly the column width. |
| `Cell.FmtSizePlaceholder` | src/render/grid/cell.rs:276-300 | Empty when sizes are suppressed or the column has no width. Otherwise it is `-` right-aligned to the placeholder width, painted when a placeholder style is set. |
| `Cell.FmtBytes` | src/render/grid/cell.rs:304-333 | The metric text must split on `' '` into exactly two parts, or the cell panics. Without colour it then always succeeds. |
| `Cell.FmtBytesOfParts` | src/render/grid/cell.rs:309-312 | For a metric text `size unit`, the plain output is the right-aligned size, a space and the right-aligned unit. |
| `Cell.PlaceholderMatchesBytes` | src/render/grid/cell.rs:281-312 | When the unit column is as wide as the unit names, a human-readable byte cell and the placeholder have the same width. |
| `Cell.FmtUnitless` | src/render/grid/cell.rs:368-381 | The count right-aligned to the column. With colour it needs the theme's `B` entry, and unpainting gives the plain text back. |
| `Cell.FmtBlocks` | src/render/grid/cell.rs:337-364 | The count right-aligned to the column. With colour it is painted by the prefix of the byte value, and unpainting gives the plain text back. |
| `Cell.FmtFileSize` | src/render/grid/cell.rs:120-136 | A missing size gives the placeholder. Byte sizes, line and word counts, and blocks go to their own formatters. |
| `Cell.FmtName` | src/render/grid/cell.rs:66-86 | The prefix (empty when absent) and the name without icons, and the prefix, icon, a space and the name with icons. |
| `Cell.FmtNameIcon` | src/render/grid/cell.rs:75-81 | Turning icons on inserts the icon and a space right after the prefix, and nothing else: the cell grows by the icon's width plus one. |
| `Cell.PathText` | src/render/grid/cell.rs:94-102 | The file name at depth 0. Deeper, the path relative to the canonical root, which joined back onto the root gives the path, or the whole path when it lies elsewhere. |
| `Cell.FmtPath` | src/render/grid/cell.rs:104-115 | The path text, painted with the node's style if any, behind the icon and a space when icons are on. |
| `ConfigTokens.FirstNonBlankTrim` | src/render/context/config.rs:37-39 | The first character after `trim_start` is the first character that is not Unicode whitespace. |
| `ConfigTokens.CommentLineIgnored` | src/render/context/config.rs:36-42 | A line whose first non-blank character is `#` contributes no tokens wherever it stands. |
| `ConfigTokens.IndentedComments` | src/render/context/config.rs:36-42 | An indented comment is still a comment, also behind a no-break space, which `trim_start` removes. |
| `ConfigTokens.NonAsciiBlankKept` | src/render/context/config.rs:43 | A no-break space is not ASCII whitespace, so it stays inside the token. |
| `ConfigTokens.CommentDecidedByFirstWord` | src/render/context/config.rs:36-43 | A line of words is a comment exactly when its first word starts with `#`. A `#` anywhere else is kept, and a non-comment line gives back exactly its words. |
| `ConfigTokens.SplitJoinedWords` | src/render/context/config.rs:43 | Splitting words joined by spaces on ASCII whitespace gives the words back. |
| `ConfigTokens.TokensWellFormed` | src/render/context/config.rs:43 | Every token is non-empty and free of ASCII whitespace. |
| `ConfigTokens.TokensOfLinesAppend` | src/render/context/config.rs:34-44 | The tokens of consecutive lines are the tokens of each line, in order. |
| `ConfigTokens.TokensCons` | src/render/context/config.rs:34-44 | The tokens of a config are those of its first line followed by those of the rest. |
| `ConfigTokens.LineTokensCarriageReturn` | src/render/context/config.rs:35 | The carriage return `lines` strips from a CRLF ending makes no difference to the tokens. |
| `ConfigTokens.TokensAreKeptText` | src/render/context/config.rs:34-44 | The tokens spell out the non-comment lines (the reference definition `KeptLines`), in order, with the ASCII whitespace removed. |
| `RenderConfig.ParseConfig` | src/render/context/config.rs:33-45 | `parse_config`: well-formed tokens spelling out the non-comment lines without their ASCII whitespace. |
| `ContextConfig.Parse` | src/context/config.rs:55-66 | `parse`: the same promise as `parse_config`. |
| `ContextConfig.LoadersAgree` | src/context/config.rs:55-66 | The two tokenizers agree on every config text. |
| `Text.LinesJoin` | src/render/context/config.rs:35 | For text without carriage returns or a trailing newline, joining the lines with newlines gives the text back. |
| `Text.LinesHaveNoNewline` | src/render/context/config.rs:35 | No line contains a newline. |
| `Text.SplitAsciiWhitespaceSeparates` | src/render/context/config.rs:43 | An ASCII whitespace character separates words: splitting across it is splitting each side. |
| `Text.SplitOnJoin` | src/render/grid/cell.rs:309 | Splitting on `c` parts joined with `c`, none containing `c`, gives the parts back. |
| `Text.SplitOnCount` | src/render/grid/cell.rs:309 | Splitting on `c` gives one more part than there are `c`s. |
| `Text.PadLeft` | src/render/grid/cell.rs:293 | Right alignment: spaces, then the text, to at least the width. |
| `Paths.StripPrefix` | src/render/grid/cell.rs:98-100 | The relative path exists exactly when the base is a prefix of the path, and joined back onto the base it gives the path. |
| `Paths.Extension` | src/fs/erdtree/node.rs:176 | The extension is the text after the last dot of the file name, possibly empty. A name without a dot, or whose only dot is its first character, has none. |

## Left out

- Threads, the channel and the parallel walker of `traverse` are not modelled. The collecting loop is a fold over the nodes in the order they were received. The walker is a foreign library.
- Filesystem calls in the `Node` constructors are not modelled: `metadata`, `read_link`, the `LS_COLORS` lookups and the physical-size query. Their results are fields of `Entries.Entry`.
- `FileSize` measurement and formatting, `empty_string`, `SiPrefix` and `BinPrefix` are not modelled. A size is a natural number, a formatter is a function parameter, and a cell receives the metric's display text and its prefix keys.
- The glyph and colour tables of `src/icons.rs` and `src/icons/mod.rs` are data. They are an `IconTable` parameter.
- The process-wide style tables of `src/styles/mod.rs`, `src/render/styles/mod.rs` and `src/render/styles.rs` are not modelled. A style is a parameter, or `None` when a table was never initialised. Painting is a concrete ANSI escape, then the text, then a reset.
- The comparators of the order module are not part of this model. A comparator is any `le` that is a total preorder.
- `src/cli.rs` and `src/render/context/mod.rs` are not modelled: argument parsing, glob overrides, `canonicalize` and stdin. `dir_canonical` is a field of `Cell.CellContext`.
- `read_config_to_string` and the `config_from_*` helpers read the environment and files. They are left out.
- The datetime, owner, group, inode, link-count and permission cells of `cell.rs` are left out, and so is `Display for Cell`. They are formatting glue over `chrono` and the global styles.
- Size sums are unbounded naturals, so `u64` overflow is not modelled.
- `OsStr` values are strings, so `to_string_lossy` is the identity.
- `Path` is a root flag and a list of normal components. Windows prefixes and `.` components are not modelled.
- `Aggregator.OrderIndependent`: the conclusion is stated only for streams in which every directory arrives before its descendants. The code loses entries otherwise (see `Aggregator.OrphanDropped`), so no unconditional statement holds.
- `Assembler.AssembleSizes`: stated for nodes as the aggregator produces them (no children yet, and no size on a directory). A directory that already had a size and whose children sum to 0 keeps that size (see `Assembler.AssembleSizeRule`).
- `TreeDisplay.RenderPreOrder`: stated for trees that no depth limit cuts off. Below the limit, only the root's children are guaranteed (see `TreeDisplay.LevelZero` and `TreeDisplay.RenderDepth`).
- `ArenaNode.Node.Display`: the size column comes from the `layout` submodule (`SizeLocation::from`, `default_string` and `format`), which is not part of this model. The model assumes it behaves like the previous generation's size column at src/render/tree/node.rs:323-348: `(size)` on the right, and the empty string or the formatted size on the left.
- `Cell.FmtUnitless`: the metric text is right-aligned to the column width. In the source this alignment is `{metric:>width$}`, which pads only if the metric's `Display` honours the formatter's width. Those `Display` implementations are not part of this model.
- `Cell.FmtBlocks`: it assumes the same right-alignment as `Cell.FmtUnitless`, for the same reason.
- `Cell.FmtBytes`: with colour, only the panic on a malformed metric text is stated. A theme lookup that misses is modelled as a `NoColour` failure in place of the `unwrap` panic.
