/**
 * Which roots and files a scan starts from (`TodoReviewCommand.run`,
 * plugin/TodoReview.py:205-239): a decision table over the command's arguments, the
 * current view and the window.
 */
module Targets {
  import opened Common
  import opened System
  import opened Scan

  /** The window the command runs in: its views and its project folders. */
  datatype Window = Window(views: seq<OpenView>, folders: seq<Path>)

  /** The command's arguments, each read with the default the code gives it. */
  datatype Args = Args(paths: seq<Path>, currentFile: bool, openFiles: bool, openFilesOnly: bool)

  /** What the engine is built from: the roots to walk and the explicit files. */
  datatype Targets = Targets(paths: seq<Path>, filepaths: seq<Path>)

  /** The paths among `ps` that are files, in order. */
  function FilesAmong(ps: seq<Path>, isFile: Path -> bool): seq<Path> {
    if ps == [] then []
    else FilesAmong(ps[..|ps| - 1], isFile) + (if isFile(ps[|ps| - 1]) then [ps[|ps| - 1]] else [])
  }

  /** The files among `ps` are exactly its members that are files, and no more of them. */
  lemma {:induction false} FilesAmongIff(ps: seq<Path>, isFile: Path -> bool, p: Path)
    ensures p in FilesAmong(ps, isFile) <==> p in ps && isFile(p)
    ensures |FilesAmong(ps, isFile)| <= |ps|
  {
    if ps != [] {
      var init := ps[..|ps| - 1];
      assert ps == init + [ps[|ps| - 1]];
      FilesAmongIff(init, isFile, p);
    }
  }

  /**
   * The targets of a scan, or None when no scan starts: there is no window, or only the
   * current file is asked for and its view was never saved. `fileName` is the current
   * view's file name, "" when unsaved; `includePaths` is the `include_paths` setting.
   */
  function Plan(args: Args, fileName: Path, window: Option<Window>, includePaths: seq<Path>,
                isFile: Path -> bool): Option<Targets>
  {
    if window.None? then None
    else if args.currentFile then
      if fileName != "" then Some(Targets([], [fileName])) else None
    else
      var paths := if args.paths == [] && includePaths != [] then includePaths else args.paths;
      var listed := if args.openFiles then OpenFileNames(window.value.views) else [];
      if args.openFilesOnly then Some(Targets([], listed))
      else if paths == [] then Some(Targets(window.value.folders, listed))
      else Some(Targets(paths, listed + FilesAmong(paths, isFile)))
  }

  /** The target selection of `TodoReviewCommand.run`, step by step as the code takes it. */
  method Select(args: Args, fileName: Path, window: Option<Window>, includePaths: seq<Path>,
                isFile: Path -> bool) returns (r: Option<Targets>)
    ensures r == Plan(args, fileName, window, includePaths, isFile)
  {
    if window.None? {
      return None;
    }
    var w := window.value;
    var filepaths: seq<Path> := [];
    var paths := args.paths;
    if args.currentFile {
      if fileName != "" {
        paths := [];
        filepaths := [fileName];
      } else {
        return None;
      }
    } else {
      if paths == [] && includePaths != [] {
        paths := includePaths;
      }
      if args.openFiles {
        filepaths := OpenFileNames(w.views);
      }
      if !args.openFilesOnly {
        if paths == [] {
          paths := w.folders;
        } else {
          ghost var listed := filepaths;
          var k := 0;
          while k < |paths|
            invariant 0 <= k <= |paths|
            invariant filepaths == listed + FilesAmong(paths[..k], isFile)
          {
            assert paths[..k + 1][..k] == paths[..k];
            if isFile(paths[k]) {
              filepaths := filepaths + [paths[k]];
            }
            k := k + 1;
          }
          assert paths[..k] == paths;
        }
      } else {
        paths := [];
      }
    }
    r := Some(Targets(paths, filepaths));
  }

  /** With `current_file`, a saved view is scanned alone; an unsaved one starts no scan. */
  lemma PlanCurrentFile(args: Args, fileName: Path, w: Window, includePaths: seq<Path>, isFile: Path -> bool)
    requires args.currentFile
    ensures fileName != "" ==> Plan(args, fileName, Some(w), includePaths, isFile) == Some(Targets([], [fileName]))
    ensures fileName == "" ==> Plan(args, fileName, Some(w), includePaths, isFile).None?
  {
  }

  /** With `open_files_only` no folder is walked; the open files are scanned when asked for. */
  lemma PlanOpenFilesOnly(args: Args, fileName: Path, w: Window, includePaths: seq<Path>, isFile: Path -> bool)
    requires !args.currentFile && args.openFilesOnly
    ensures Plan(args, fileName, Some(w), includePaths, isFile) ==
      Some(Targets([], if args.openFiles then OpenFileNames(w.views) else []))
  {
  }

  /** Without paths and without `include_paths`, the window's folders are walked. */
  lemma PlanDefaultsToFolders(args: Args, fileName: Path, w: Window, isFile: Path -> bool)
    requires !args.currentFile && !args.openFilesOnly && args.paths == []
    ensures var t := Plan(args, fileName, Some(w), [], isFile);
      t.Some? && t.value.paths == w.folders &&
      t.value.filepaths == (if args.openFiles then OpenFileNames(w.views) else [])
  {
  }

  /**
   * Given paths (or, failing those, `include_paths`) are walked, and those of them that
   * are files are also scanned as explicit files.
   */
  lemma PlanGivenPaths(args: Args, fileName: Path, w: Window, includePaths: seq<Path>, isFile: Path -> bool)
    requires !args.currentFile && !args.openFilesOnly
    requires args.paths != [] || includePaths != []
    ensures var roots := if args.paths != [] then args.paths else includePaths;
      var t := Plan(args, fileName, Some(w), includePaths, isFile);
      t.Some? && t.value.paths == roots &&
      forall p :: p in t.value.filepaths <==>
        (args.openFiles && p in OpenFileNames(w.views)) || (p in roots && isFile(p))
  {
    var roots := if args.paths != [] then args.paths else includePaths;
    forall p ensures p in FilesAmong(roots, isFile) <==> p in roots && isFile(p) {
      FilesAmongIff(roots, isFile, p);
    }
  }

  /** Without a window nothing is scanned. */
  lemma PlanNeedsWindow(args: Args, fileName: Path, includePaths: seq<Path>, isFile: Path -> bool)
    ensures Plan(args, fileName, None, includePaths, isFile).None?
  {
  }
}
