/**
 * What the plugin takes from Python, the file system and the regular-expression engine.
 * None of it is modelled: each operation is a function the model is given.
 */
module System {
  import opened Common
  import opened Patterns

  type Path = string

  /** One triple `(dirpath, dirnames, filenames)` that `os.walk` yields. */
  datatype WalkEntry = WalkEntry(dir: Path, subdirs: seq<string>, files: seq<string>)

  /**
   * Reading a file from disk under an encoding: all of its lines, or an `OSError` or
   * `UnicodeDecodeError`, raised after the lines in `before` were delivered.
   */
  datatype ReadOutcome = Read(lines: seq<string>) | Failed(before: seq<string>)

  /** An editor view: its file name ("" for an unsaved view) and its current lines. */
  datatype OpenView = OpenView(fileName: Path, lines: seq<string>)

  /** `match.groupdict().items()`: each named group with its text, None if it did not take part. */
  type GroupDict = seq<(string, Option<string>)>

  /**
   * The foreign operations. `walk(root)` lists every directory below `root`, the root
   * first, as `os.walk(root, followlinks=True)` visits them; `search` and `finditer` are
   * `re.search` and `re.finditer`; `translate` is `fnmatch.translate`; `relativeToFolder`
   * is the "auto" depth rendering (window folders and `os.path.relpath`).
   */
  datatype Host = Host(
    abspath: Path -> Path,
    expanduser: Path -> Path,
    realpath: Path -> Path,
    walk: Path -> seq<WalkEntry>,
    join: (Path, string) -> Path,
    sep: string,
    isFile: Path -> bool,
    read: (Path, string) -> ReadOutcome,
    translate: string -> string,
    search: (Regex, string) -> bool,
    finditer: (Regex, string) -> seq<GroupDict>,
    relativeToFolder: Path -> Path)

  /**
   * `Engine.resolve`: `abspath` first, then `expanduser`, then `realpath` when symlinks
   * are resolved.
   */
  function Resolve(h: Host, resolveSymlinks: bool, p: Path): (r: Path)
    ensures !resolveSymlinks ==> r == h.expanduser(h.abspath(p))
  {
    var q := h.expanduser(h.abspath(p));
    if resolveSymlinks then h.realpath(q) else q
  }

  /** Resolving symlinks only adds `realpath` on top of the other resolution. */
  lemma ResolveSymlinksAddsRealpath(h: Host, p: Path)
    ensures Resolve(h, true, p) == h.realpath(Resolve(h, false, p))
  {
  }
}
