/**
 * The line layout shared by the two later `Node` generations (src/render/tree/node.rs and
 * src/render/tree/node/mod.rs): where the size column goes, what it shows when a node has
 * no size, and how icon, padding and name are put together.
 */
module NodeLayout {
  import opened Wrappers

  /** `SizeLocation`: the size after the name (the default) or before the prefix. */
  datatype SizeLocation = Right | Left

  /** The size column. A missing size is the empty string on the right and the blank
      placeholder `emptyString` on the left; a size is formatted by `fmt`, whose flag says
      whether it is printed on the left, and is put in parentheses on the right. */
  function SizeColumn(loc: SizeLocation, size: Option<nat>, fmt: (nat, bool) -> string, emptyString: string): (r: string)
    ensures loc == Right && size.None? ==> r == ""
    ensures loc == Left && size.None? ==> r == emptyString
    ensures loc == Right && size.Some? ==> |r| >= 2 && r[0] == '(' && r[|r| - 1] == ')' && r[1..|r| - 1] == fmt(size.value, false)
    ensures loc == Left && size.Some? ==> r == fmt(size.value, true)
  {
    match (loc, size)
    case (Right, None) => ""
    case (Left, None) => emptyString
    case (Right, Some(s)) => "(" + fmt(s, false) + ")"
    case (Left, Some(s)) => fmt(s, true)
  }

  /** The icon followed by one space of padding, or nothing when there is no icon. */
  function IconColumn(icon: Option<string>): (r: string)
    ensures icon.None? ==> r == ""
    ensures icon.Some? ==> |r| == |icon.value| + 1 && r[..|icon.value|] == icon.value && r[|icon.value|] == ' '
  {
    match icon
    case None => ""
    case Some(i) => i + " "
  }

  /** `display`: `prefix icon name size` on the right, `size prefix icon name` on the left. */
  function Layout(loc: SizeLocation, prefix: string, icon: Option<string>, name: string, size: string): (r: string)
    ensures |r| == |prefix| + |IconColumn(icon)| + |name| + 1 + |size|
    ensures loc == Right ==> r[..|prefix|] == prefix && r[|r| - |size|..] == size && r[|r| - |size| - 1] == ' '
    ensures loc == Left ==> r[..|size|] == size && r[|size|] == ' ' && r[|r| - |name|..] == name
  {
    match loc
    case Right => prefix + IconColumn(icon) + name + " " + size
    case Left => size + " " + prefix + IconColumn(icon) + name
  }

  /** The two placements carry the same body: the left line with its size column and space
      removed is the right line with its space and size column removed. */
  lemma LayoutsShareBody(prefix: string, icon: Option<string>, name: string, size: string)
    ensures
      var right := Layout(Right, prefix, icon, name, size);
      var left := Layout(Left, prefix, icon, name, size);
      right[..|right| - |size| - 1] == left[|size| + 1..]
  {
    var body := prefix + IconColumn(icon) + name;
    assert Layout(Right, prefix, icon, name, size) == body + " " + size;
    assert Layout(Left, prefix, icon, name, size) == size + " " + body;
  }

  /** The icon costs its own width plus exactly one padding space. */
  lemma IconWidth(loc: SizeLocation, prefix: string, icon: string, name: string, size: string)
    ensures |Layout(loc, prefix, Some(icon), name, size)| == |Layout(loc, prefix, None, name, size)| + |icon| + 1
  {
  }
}
