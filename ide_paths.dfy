/**
 * The three IntelliJ path helpers the cache key uses. Their sources are not part of this
 * model; each is given the plain definition stated in its comment.
 */
module IdePaths {
  import opened JavaString

  function Max(a: int, b: int): int
  {
    if a < b then b else a
  }

  /** `PathUtil.getFileName`, modelled as the text after the last '/' or '\\' (the whole path if none). */
  function FileName(path: string): (r: string)
    ensures |r| <= |path| && r == path[|path| - |r|..]
    ensures '/' !in r && '\\' !in r
  {
    var i := Max(LastIndexOf(path, '/'), LastIndexOf(path, '\\'));
    path[i + 1..]
  }

  /** The file name starts right after the last separator: nothing before it is kept. */
  lemma FileNameAfterLastSeparator(path: string)
    ensures var r := FileName(path);
      r == path || path[|path| - |r| - 1] == '/' || path[|path| - |r| - 1] == '\\'
  {
  }

  /** `FileUtil.getNameWithoutExtension`, modelled as the name up to (not including) its last '.'. */
  function NameWithoutExtension(name: string): (r: string)
    ensures r == name <==> '.' !in name
    ensures r <= name
  {
    var i := LastIndexOf(name, '.');
    if i < 0 then name else name[..i]
  }

  /** With a '.' in the name, the name without extension stops right at the last '.'. */
  lemma NameWithoutExtensionAtLastDot(name: string)
    requires '.' in name
    ensures var r := NameWithoutExtension(name);
      name[|r|] == '.' && '.' !in name[|r| + 1..]
  {
  }

  /** `FileUtilRt.getExtension`, modelled as the text after the last '.', or "" when there is none. */
  function Extension(name: string): (r: string)
    ensures '.' !in r
    ensures r == "" <== '.' !in name
    ensures '.' in name ==> |r| < |name| && name[|name| - |r| - 1..] == ['.'] + r
  {
    var i := LastIndexOf(name, '.');
    if i < 0 then "" else name[i + 1..]
  }
}
