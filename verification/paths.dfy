/**
 * Filesystem paths as Rust's `std::path` sees them after splitting into components:
 * an optional root followed by the normal components. `Parent` is `Path::parent` (and the
 * truncation `PathBuf::pop` performs), `FileName` is `Path::file_name`, `Extension` is
 * `Path::extension`, `StripPrefix` is `Path::strip_prefix` and `Display` is `Path::display`.
 */
module Paths {
  import opened Wrappers
  import Text

  /** `absolute` is true when the path starts at the root `/`. */
  datatype Path = Path(absolute: bool, components: seq<string>)

  /** The path without its last component; `None` for the root and the empty path, which
      have no parent. */
  function Parent(p: Path): (r: Option<Path>)
    ensures r.None? <==> |p.components| == 0
    ensures r.Some? ==> r.value.absolute == p.absolute
    ensures r.Some? ==> r.value.components + [p.components[|p.components| - 1]] == p.components
  {
    if |p.components| == 0 then None
    else Some(Path(p.absolute, p.components[..|p.components| - 1]))
  }

  /** A parent is strictly shorter than its child, so no path is its own parent. */
  lemma ParentShorter(p: Path)
    requires Parent(p).Some?
    ensures |Parent(p).value.components| + 1 == |p.components|
    ensures Parent(p).value != p
  {
    var q := Parent(p).value;
    assert |q.components + [p.components[|p.components| - 1]]| == |q.components| + 1;
  }

  /** The final component, unless the path has none or ends in `..`. */
  function FileName(p: Path): (r: Option<string>)
    ensures r.Some? <==> |p.components| > 0 && p.components[|p.components| - 1] != ".."
    ensures r.Some? ==> r.value == p.components[|p.components| - 1]
  {
    if |p.components| == 0 then None
    else
      var last := p.components[|p.components| - 1];
      if last == ".." then None else Some(last)
  }

  /** Text of the path: `/` for an absolute path, then the components separated by `/`. */
  function Display(p: Path): string
  {
    (if p.absolute then "/" else "") + Text.JoinWith(p.components, "/")
  }

  /** Position of the last `.` in `s`, or -1. */
  function LastDot(s: string): (i: int)
    ensures -1 <= i < |s|
    ensures i >= 0 ==> s[i] == '.'
    ensures forall j :: i < j < |s| ==> s[j] != '.'
  {
    if |s| == 0 then -1
    else if s[|s| - 1] == '.' then |s| - 1
    else LastDot(s[..|s| - 1])
  }

  /** The text after the last `.` of the file name. A name without a dot, or whose only
      dot is its first character (`.bashrc`), has no extension. */
  function Extension(p: Path): (r: Option<string>)
    ensures r.Some? ==> FileName(p).Some?
    ensures r.Some? ==>
      var n := FileName(p).value;
      && |r.value| + 2 <= |n|
      && n[|n| - |r.value| - 1] == '.'
      && n[|n| - |r.value|..] == r.value
      && '.' !in r.value
    ensures r.None? && FileName(p).Some? ==>
      var n := FileName(p).value;
      forall j :: 0 < j < |n| ==> n[j] != '.'
  {
    match FileName(p)
    case None => None
    case Some(n) =>
      var i := LastDot(n);
      if i <= 0 then None
      else
        var e := n[i + 1..];
        assert forall k :: 0 <= k < |e| ==> e[k] == n[i + 1 + k];
        Some(e)
  }

  /** `PathBuf::join`: an absolute `rel` replaces `base`, a relative one is appended. */
  function Join(base: Path, rel: Path): Path
  {
    if rel.absolute then rel else Path(base.absolute, base.components + rel.components)
  }

  /** `p` relative to `base`, when `base` is a leading run of `p`'s components (with the
      same root); joining `base` back onto the result gives `p`. */
  function StripPrefix(p: Path, base: Path): (r: Option<Path>)
    ensures r.Some? <==>
      && p.absolute == base.absolute
      && |base.components| <= |p.components|
      && base.components == p.components[..|base.components|]
    ensures r.Some? ==> !r.value.absolute && Join(base, r.value) == p
  {
    var n := |base.components|;
    if p.absolute == base.absolute && n <= |p.components| && base.components == p.components[..n] then
      var rel := Path(false, p.components[n..]);
      assert base.components + rel.components == p.components;
      Some(rel)
    else None
  }
}
