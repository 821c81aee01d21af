/**
 * The parts of Node's `path` module the renderer relies on, for bare file
 * names (a dropped file's `name` carries no directory part).
 */
module NodePath {
  import opened Strings

  const Separator: char := '/'

  /** `path.join(dir, name)` for a directory and a bare entry name. */
  function JoinPath(dir: string, name: string): (p: string)
    ensures |p| == |dir| + 1 + |name| && p[..|dir|] == dir && p[|dir|] == Separator
  {
    dir + [Separator] + name
  }

  /**
   * `path.extname(name)`: from the last '.' to the end, except that a name
   * whose only dot is its first character (".bashrc"), a name without a dot
   * and the name ".." have no extension.
   */
  function Extname(name: string): (ext: string)
    ensures ext == [] || (ext[0] == '.' && 0 < |ext| < |name| && EndsWith(name, ext))
    ensures ext != [] ==> '.' !in ext[1..]
    ensures ext != [] <==> name != ".." && exists d :: 0 < d < |name| && name[d] == '.'
  {
    match LastIndexOf(name, '.')
    case None => ""
    case Some(d) =>
      if d == 0 || name == ".." then ""
      else name[d..]
  }

  /**
   * `path.basename(name, suffix)`: the name without the suffix when the name
   * ends with it (case-sensitively), the empty string when they are equal,
   * and the whole name otherwise.
   */
  function BaseName(name: string, suffix: string): (b: string)
    ensures EndsWith(name, suffix) && suffix != [] ==> b + suffix == name
    ensures !EndsWith(name, suffix) || suffix == [] ==> b == name
  {
    if suffix == [] || |suffix| > |name| then name
    else if suffix == name then ""
    else if EndsWith(name, suffix) then name[..|name| - |suffix|]
    else name
  }

  /**
   * `path.basename(name, path.extname(name))`: the name without its
   * extension. Appending the extension gives the name back.
   */
  function Stem(name: string): (stem: string)
    ensures stem + Extname(name) == name
    ensures Extname(name) != [] ==> stem != []
  {
    BaseName(name, Extname(name))
  }
}
