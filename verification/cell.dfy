/**
 * The name, path and size cells of the long-listing grid (src/render/grid/cell.rs). What
 * the cells read from the process-wide style tables and from the node is passed in: the
 * placeholder style, the disk-usage colour theme, the styled name, the icon, and the
 * `Display` text of a size metric.
 */
module Cell {
  import opened Wrappers
  import opened Paths
  import opened Ansi
  import Text

  /** `styles::PLACEHOLDER`. */
  const PLACEHOLDER: string := "-"

  /** Which quantity the size column shows. */
  datatype CellDiskUsage = Logical | Physical | Lines | Words | Blocks

  /** SI (powers of 1000) or binary (powers of 1024) unit prefixes. */
  datatype PrefixKind = Si | Bin

  /** The parts of the rendering context the cells read. `duTheme` is the disk-usage
      colour table, `None` when it was never initialised. */
  datatype CellContext = CellContext(
    suppressSize: bool,
    maxSizeWidth: nat,
    maxSizeUnitWidth: nat,
    diskUsage: CellDiskUsage,
    unit: PrefixKind,
    human: bool,
    icons: bool,
    noColor: bool,
    dirCanonical: Path,
    placeholderStyle: Option<Style>,
    duTheme: Option<map<string, Style>>)

  /** A node's size as the cell sees it: the metric's `Display` text, plus for byte and
      block counts the theme keys of the SI and binary prefixes of their value. */
  datatype Metric =
    | ByteMetric(text: string, humanReadable: bool, siKey: string, binKey: string)
    | LineMetric(text: string)
    | WordMetric(text: string)
    | BlockMetric(text: string, siKey: string, binKey: string)

  /** The ways a size cell panics: the byte text is not `size unit`, or an `unwrap` of the
      colour theme (or of a colour in it) fails. */
  datatype Panic = NotTwoParts | NoColour

  /** The width of the size placeholder. */
  function PlaceholderWidth(ctx: CellContext): (w: nat)
    ensures ctx.diskUsage !in {Logical, Physical} ==> w == ctx.maxSizeWidth
    ensures ctx.diskUsage in {Logical, Physical} ==>
      w == ctx.maxSizeWidth + match ctx.unit
                              case Si => (if ctx.human then 3 else 1)
                              case Bin => (if ctx.human then 4 else 2)
  {
    var padding := ctx.maxSizeWidth + 1;
    match ctx.diskUsage
    case Logical | Physical =>
      (match ctx.unit
       case Si => if ctx.human then padding + 2 else padding + 0
       case Bin => if ctx.human then padding + 3 else padding + 1)
    case _ => padding - 1
  }

  /** `fmt_size_placeholder`: nothing when sizes are suppressed or the size column has no
      width; otherwise `-` right-aligned to the placeholder width, painted if a style is set. */
  function FmtSizePlaceholder(ctx: CellContext): (r: string)
    ensures ctx.suppressSize || ctx.maxSizeWidth == 0 ==> r == ""
    ensures !(ctx.suppressSize || ctx.maxSizeWidth == 0) ==>
      var plain := Text.PadLeft(PLACEHOLDER, PlaceholderWidth(ctx));
      && |plain| == PlaceholderWidth(ctx)
      && plain[|plain| - 1] == '-'
      && (forall i :: 0 <= i < |plain| - 1 ==> plain[i] == ' ')
      && r == (match ctx.placeholderStyle case None => plain case Some(st) => Paint(st, plain))
  {
    if ctx.suppressSize || ctx.maxSizeWidth == 0 then ""
    else
      var formatted := Text.PadLeft(PLACEHOLDER, PlaceholderWidth(ctx));
      match ctx.placeholderStyle
      case None => formatted
      case Some(st) => Paint(st, formatted)
  }

  /** The colour the disk-usage theme gives `key`, if the theme is set and has it. */
  function ThemeColour(ctx: CellContext, key: string): (r: Option<Style>)
    ensures r.Some? <==> ctx.duTheme.Some? && key in ctx.duTheme.value
  {
    match ctx.duTheme
    case None => None
    case Some(t) => if key in t then Some(t[key]) else None
  }

  /** `fmt_bytes`: the metric text must split on `' '` into exactly a size and a unit, which
      are right-aligned to the column widths; with colour, the unit (or, when not human
      readable, the value's prefix) picks the colour. */
  function FmtBytes(ctx: CellContext, text: string, humanReadable: bool, siKey: string, binKey: string): (r: Result<string, Panic>)
    ensures Text.Count(text, ' ') != 1 ==> r == Failure(NotTwoParts)
    ensures Text.Count(text, ' ') == 1 && ctx.noColor ==> r.Success?
  {
    var parts := Text.SplitOn(text, ' ');
    Text.SplitOnCount(text, ' ');
    if |parts| != 2 then Failure(NotTwoParts)
    else
      var size := parts[0];
      var unit := parts[1];
      var out := Text.PadLeft(size, ctx.maxSizeWidth) + " " + Text.PadLeft(unit, ctx.maxSizeUnitWidth);
      if ctx.noColor then Success(out)
      else
        var key := if humanReadable then unit else match ctx.unit case Si => siKey case Bin => binKey;
        match ThemeColour(ctx, key)
        case None => Failure(NoColour)
        case Some(colour) => Success(Paint(colour, out))
  }

  /** A metric written as `size unit` is laid out as the padded size, a space and the
      padded unit. */
  lemma FmtBytesOfParts(ctx: CellContext, size: string, unit: string, humanReadable: bool, siKey: string, binKey: string)
    requires ' ' !in size && ' ' !in unit
    requires ctx.noColor
    ensures FmtBytes(ctx, size + " " + unit, humanReadable, siKey, binKey) ==
      Success(Text.PadLeft(size, ctx.maxSizeWidth) + " " + Text.PadLeft(unit, ctx.maxSizeUnitWidth))
  {
    var text := size + " " + unit;
    assert Text.JoinWith([size, unit], [' ']) == text by {
      assert Text.JoinWith([unit], [' ']) == unit;
    }
    Text.SplitOnJoin([size, unit], ' ');
  }

  /** A placeholder lines up with a byte cell in human-readable mode when the unit column
      is as wide as the unit names: two characters for SI (`KB`), three for binary (`KiB`). */
  lemma PlaceholderMatchesBytes(ctx: CellContext, size: string, unit: string)
    requires ctx.diskUsage in {Logical, Physical} && ctx.human && ctx.noColor
    requires !ctx.suppressSize && ctx.maxSizeWidth > 0
    requires ctx.maxSizeUnitWidth == (if ctx.unit == Si then 2 else 3)
    requires ' ' !in size && ' ' !in unit
    requires |size| <= ctx.maxSizeWidth && |unit| <= ctx.maxSizeUnitWidth
    requires ctx.placeholderStyle.None?
    ensures FmtBytes(ctx, size + " " + unit, true, "", "").Success?
    ensures |FmtSizePlaceholder(ctx)| == |FmtBytes(ctx, size + " " + unit, true, "", "").value|
  {
    FmtBytesOfParts(ctx, size, unit, true, "", "");
  }

  /** `fmt_unitless_disk_usage`: the metric right-aligned to the size column, in the theme's
      `B` colour unless colour is off. */
  function FmtUnitless(ctx: CellContext, text: string): (r: Result<string, Panic>)
    ensures ctx.noColor ==> r == Success(Text.PadLeft(text, ctx.maxSizeWidth))
    ensures !ctx.noColor ==> (r.Success? <==> ThemeColour(ctx, "B").Some?)
    ensures r.Success? && !ctx.noColor ==> Unpaint(ThemeColour(ctx, "B").value, r.value) == Text.PadLeft(text, ctx.maxSizeWidth)
  {
    var out := Text.PadLeft(text, ctx.maxSizeWidth);
    if ctx.noColor then Success(out)
    else
      match ThemeColour(ctx, "B")
      case None => Failure(NoColour)
      case Some(colour) =>
        UnpaintPaint(colour, out);
        Success(Paint(colour, out))
  }

  /** `fmt_block_usage`: like a unitless count, but coloured by the prefix of the byte
      value the blocks amount to. */
  function FmtBlocks(ctx: CellContext, text: string, siKey: string, binKey: string): (r: Result<string, Panic>)
    ensures ctx.noColor ==> r == Success(Text.PadLeft(text, ctx.maxSizeWidth))
    ensures r.Success? && !ctx.noColor ==>
      var key := match ctx.unit case Si => siKey case Bin => binKey;
      ThemeColour(ctx, key).Some? && Unpaint(ThemeColour(ctx, key).value, r.value) == Text.PadLeft(text, ctx.maxSizeWidth)
  {
    var out := Text.PadLeft(text, ctx.maxSizeWidth);
    if ctx.noColor then Success(out)
    else
      var key := match ctx.unit case Si => siKey case Bin => binKey;
      match ThemeColour(ctx, key)
      case None => Failure(NoColour)
      case Some(colour) =>
        UnpaintPaint(colour, out);
        Success(Paint(colour, out))
  }

  /** `fmt_file_size`: the placeholder for a missing size, otherwise the formatter of the
      metric's kind. */
  function FmtFileSize(ctx: CellContext, size: Option<Metric>): (r: Result<string, Panic>)
    ensures size.None? ==> r == Success(FmtSizePlaceholder(ctx))
    ensures size.Some? && size.value.ByteMetric? ==>
      r == FmtBytes(ctx, size.value.text, size.value.humanReadable, size.value.siKey, size.value.binKey)
    ensures size.Some? && (size.value.LineMetric? || size.value.WordMetric?) ==> r == FmtUnitless(ctx, size.value.text)
    ensures size.Some? && size.value.BlockMetric? ==> r == FmtBlocks(ctx, size.value.text, size.value.siKey, size.value.binKey)
  {
    match size
    case None => Success(FmtSizePlaceholder(ctx))
    case Some(ByteMetric(text, human, si, bin)) => FmtBytes(ctx, text, human, si, bin)
    case Some(LineMetric(text)) => FmtUnitless(ctx, text)
    case Some(WordMetric(text)) => FmtUnitless(ctx, text)
    case Some(BlockMetric(text, si, bin)) => FmtBlocks(ctx, text, si, bin)
  }

  /** `fmt_name`: the prefix (empty when absent), then the icon and a space when icons are
      on, then the styled name. */
  function FmtName(ctx: CellContext, prefix: Option<string>, name: string, icon: string): (r: string)
    ensures !ctx.icons ==> r == prefix.GetOr("") + name
    ensures ctx.icons ==> r == prefix.GetOr("") + icon + " " + name
  {
    var pre := prefix.GetOr("");
    if !ctx.icons then pre + name else pre + icon + " " + name
  }

  /** Icons on or off, the name cell is the same text with `icon` and a space inserted right
      after the prefix. */
  lemma FmtNameIcon(ctx: CellContext, prefix: Option<string>, name: string, icon: string)
    ensures
      var plain := FmtName(ctx.(icons := false), prefix, name, icon);
      var withIcon := FmtName(ctx.(icons := true), prefix, name, icon);
      var k := |prefix.GetOr("")|;
      && k <= |plain|
      && withIcon == plain[..k] + icon + " " + plain[k..]
      && |withIcon| == |plain| + |icon| + 1
  {
  }

  /** The path text of `fmt_path`: the file name for the root, otherwise the path relative
      to the canonical root directory, or the whole path when it lies elsewhere. */
  function PathText(ctx: CellContext, depth: nat, fileName: string, path: Path): (r: string)
    ensures depth == 0 ==> r == fileName
    ensures depth > 0 && StripPrefix(path, ctx.dirCanonical).None? ==> r == Paths.Display(path)
    ensures depth > 0 && StripPrefix(path, ctx.dirCanonical).Some? ==>
      exists rel: Path :: !rel.absolute && Join(ctx.dirCanonical, rel) == path && r == Paths.Display(rel)
  {
    if depth == 0 then fileName
    else Paths.Display(StripPrefix(path, ctx.dirCanonical).GetOr(path))
  }

  /** `fmt_path`: the path text, painted with the node's style if it has one, after the icon
      and a space when icons are on. */
  function FmtPath(ctx: CellContext, depth: nat, fileName: string, path: Path, style: Option<Style>, icon: string): (r: string)
    ensures var shown := match style case None => PathText(ctx, depth, fileName, path) case Some(st) => Paint(st, PathText(ctx, depth, fileName, path));
      r == if ctx.icons then icon + " " + shown else shown
  {
    var text := PathText(ctx, depth, fileName, path);
    var formatted := match style case None => text case Some(st) => Paint(st, text);
    if !ctx.icons then formatted else icon + " " + formatted
  }
}
