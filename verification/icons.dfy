/**
 * The glyph tables, passed in as data instead of being read from process-wide statics:
 * icons keyed by extension and by special file name, the directory and symlink icons,
 * and the default icon.
 */
module Icons {
  import opened Wrappers
  import opened Entries

  datatype IconTable = IconTable(
    byExtension: map<string, string>,
    byFileName: map<string, string>,
    dirIcon: Option<string>,
    symlinkIcon: Option<string>,
    defaultIcon: string)

  function FromExtension(t: IconTable, ext: string): Option<string>
  {
    if ext in t.byExtension then Some(t.byExtension[ext]) else None
  }

  /** Only directories and symlinks have a file-type icon. */
  function FromFileType(t: IconTable, ft: FileType): (r: Option<string>)
    ensures r.Some? ==> ft == Dir || ft == Symlink
  {
    match ft
    case Dir => t.dirIcon
    case Symlink => t.symlinkIcon
    case _ => None
  }

  function FromFileName(t: IconTable, name: string): Option<string>
  {
    if name in t.byFileName then Some(t.byFileName[name]) else None
  }

  /** The extension lookup of an optional extension. */
  function ByExtension(t: IconTable, ext: Option<string>): Option<string>
  {
    match ext
    case None => None
    case Some(e) => FromExtension(t, e)
  }

  /** The file-type lookup of an optional file type. */
  function ByFileType(t: IconTable, ft: Option<FileType>): Option<string>
  {
    match ft
    case None => None
    case Some(f) => FromFileType(t, f)
  }

  /** The first hit of extension, then file type, then name. */
  function ExtensionFirst(t: IconTable, ext: Option<string>, ft: Option<FileType>, name: string): (r: Option<string>)
    ensures r.None? <==> ByExtension(t, ext).None? && ByFileType(t, ft).None? && FromFileName(t, name).None?
    ensures ByExtension(t, ext).Some? ==> r == ByExtension(t, ext)
  {
    if ByExtension(t, ext).Some? then ByExtension(t, ext)
    else if ByFileType(t, ft).Some? then ByFileType(t, ft)
    else FromFileName(t, name)
  }

  /** The first hit of file type, then extension, then name. */
  function TypeFirst(t: IconTable, ext: Option<string>, ft: Option<FileType>, name: string): (r: Option<string>)
    ensures r.None? <==> ByExtension(t, ext).None? && ByFileType(t, ft).None? && FromFileName(t, name).None?
    ensures ByFileType(t, ft).Some? ==> r == ByFileType(t, ft)
  {
    if ByFileType(t, ft).Some? then ByFileType(t, ft)
    else if ByExtension(t, ext).Some? then ByExtension(t, ext)
    else FromFileName(t, name)
  }

  /** The two priority orders choose the same icon exactly when the extension and the file
      type do not both supply a different icon. */
  lemma ChainsAgree(t: IconTable, ext: Option<string>, ft: Option<FileType>, name: string)
    ensures ExtensionFirst(t, ext, ft, name) == TypeFirst(t, ext, ft, name) <==>
      ByExtension(t, ext).None? || ByFileType(t, ft).None? || ByExtension(t, ext) == ByFileType(t, ft)
  {
  }

  /** A directory named `src.rs` gets the Rust icon when the extension is tried first and
      the directory icon when the file type is. */
  lemma ChainsDiffer()
    ensures
      var t := IconTable(map["rs" := "R"], map[], Some("D"), None, "*");
      && ExtensionFirst(t, Some("rs"), Some(Dir), "src.rs") == Some("R")
      && TypeFirst(t, Some("rs"), Some(Dir), "src.rs") == Some("D")
  {
  }
}
