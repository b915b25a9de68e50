/**
 * The scanning engine (`Engine` and `Thread` in plugin/TodoReview.py:82-201): collecting
 * the files to scan, filtering and de-duplicating them, and extracting the findings of
 * each file while counting the files handled.
 */
module Scan {
  import opened Common
  import opened Patterns
  import opened Configuration
  import opened System
  import opened Extraction

  /** `[v.file_name() for v in open if v.file_name()]`: the names of the saved open views. */
  function OpenFileNames(open: seq<OpenView>): (r: seq<Path>)
    ensures forall p :: p in r <==> p != "" && exists v :: v in open && v.fileName == p
  {
    if open == [] then []
    else
      var init := open[..|open| - 1];
      var last := open[|open| - 1];
      assert open == init + [last];
      OpenFileNames(init) + (if last.fileName != "" then [last.fileName] else [])
  }

  /** The lines of the first open view named `p`; none when no view has that name. */
  function ViewLines(open: seq<OpenView>, p: Path): seq<string> {
    if open == [] then []
    else if open[0].fileName == p then open[0].lines
    else ViewLines(open[1..], p)
  }

  /** What a scan works with: the host, the compiled matchers and the open views. */
  datatype Scope = Scope(
    host: Host,
    resolveSymlinks: bool,
    patterns: Regex,
    excludeFiles: Regex,
    excludeFolders: Regex,
    open: seq<OpenView>,
    encoding: string,
    variant: Variant)
  {
    function Resolve(p: Path): Path {
      System.Resolve(host, resolveSymlinks, p)
    }

    /** A walked directory is skipped when its path followed by `os.sep` matches. */
    predicate DirExcluded(dir: Path) {
      host.search(excludeFolders, dir + host.sep)
    }

    /** The paths of the files an entry of the walk lists. */
    function NamesIn(e: WalkEntry): seq<Path> {
      seq(|e.files|, k requires 0 <= k < |e.files| => host.join(e.dir, e.files[k]))
    }

    /** The files the walk entries contribute: those of every directory that is not excluded. */
    function Walked(entries: seq<WalkEntry>): seq<Path> {
      if entries == [] then []
      else
        var last := entries[|entries| - 1];
        Walked(entries[..|entries| - 1]) + (if DirExcluded(last.dir) then [] else NamesIn(last))
    }

    /** The files collected from every root, each root resolved before it is walked. */
    function Collected(roots: seq<Path>): seq<Path> {
      if roots == [] then []
      else Collected(roots[..|roots| - 1]) + Walked(host.walk(Resolve(roots[|roots| - 1])))
    }

    /** A resolved path is kept when it matches neither exclude pattern. */
    predicate Passes(p: Path) {
      !host.search(excludeFolders, p) && !host.search(excludeFiles, p)
    }

    /** `files()` yields `p` for a set of candidates when `p` is some candidate, resolved, and passes. */
    predicate Admits(cands: set<Path>, p: Path) {
      Passes(p) && exists c :: c in cands && Resolve(c) == p
    }

    /** Where the lines of a file come from: the first open view with that name, else the disk. */
    function Source(p: Path): ReadOutcome {
      if p in OpenFileNames(open) then Read(ViewLines(open, p)) else host.read(p, encoding)
    }

    /** `self.patterns.finditer` on one line. */
    function Matcher(): string -> seq<GroupDict> {
      line => host.finditer(patterns, line)
    }

    /**
     * The findings of one file. A read that fails adds nothing when the lines are read
     * all at once; when they are read one by one the lines read before the error count.
     */
    function FileFindings(p: Path): seq<Finding> {
      match Source(p)
      case Read(lines) => LinesFindings(p, lines, Matcher())
      case Failed(before) => if variant.KeepsLinesBeforeError() then LinesFindings(p, before, Matcher()) else []
    }

    /** The findings of a sequence of files, file by file. */
    function ScanFindings(paths: seq<Path>): seq<Finding> {
      FlatMap(FileFindings, paths)
    }

    /** A path was collected from a walk entry that was not excluded. */
    predicate FromKeptEntry(p: Path, e: WalkEntry) {
      !DirExcluded(e.dir) && p in NamesIn(e)
    }
  }

  /**
   * Each walk entry is tested on its own: a file is collected exactly when the entry
   * listing it is not excluded, whatever the entries above it.
   */
  lemma WalkedIff(sc: Scope, entries: seq<WalkEntry>, p: Path)
    ensures p in sc.Walked(entries) <==> exists e :: e in entries && sc.FromKeptEntry(p, e)
  {
    if p in sc.Walked(entries) {
      var e := WalkedSound(sc, entries, p);
    }
    if exists e :: e in entries && sc.FromKeptEntry(p, e) {
      var e :| e in entries && sc.FromKeptEntry(p, e);
      WalkedComplete(sc, entries, p, e);
    }
  }

  /** A collected file comes from a kept entry, which the lemma returns. */
  lemma {:induction false} WalkedSound(sc: Scope, entries: seq<WalkEntry>, p: Path) returns (e: WalkEntry)
    requires p in sc.Walked(entries)
    ensures e in entries && sc.FromKeptEntry(p, e)
  {
    var init := entries[..|entries| - 1];
    var last := entries[|entries| - 1];
    assert entries == init + [last];
    if p in sc.Walked(init) {
      e := WalkedSound(sc, init, p);
    } else {
      e := last;
    }
  }

  /** Every file of a kept entry is collected. */
  lemma {:induction false} WalkedComplete(sc: Scope, entries: seq<WalkEntry>, p: Path, e: WalkEntry)
    requires e in entries && sc.FromKeptEntry(p, e)
    ensures p in sc.Walked(entries)
  {
    var init := entries[..|entries| - 1];
    var last := entries[|entries| - 1];
    assert entries == init + [last];
    if e != last {
      assert e in init;
      WalkedComplete(sc, init, p, e);
    }
  }

  /** The walk is not pruned: the files of a kept directory below an excluded one are collected. */
  lemma ExcludedParentKeepsChild(sc: Scope, parent: WalkEntry, child: WalkEntry)
    requires sc.DirExcluded(parent.dir) && !sc.DirExcluded(child.dir)
    ensures sc.Walked([parent, child]) == sc.NamesIn(child)
  {
    assert [parent, child][..1] == [parent];
    assert [parent][..0] == [];
    assert sc.Walked([parent]) == [];
  }

  /** A file is collected exactly when some root's walk lists it in a directory that is not excluded. */
  lemma CollectedIff(sc: Scope, roots: seq<Path>, p: Path)
    ensures p in sc.Collected(roots) <==>
      exists r, e :: r in roots && e in sc.host.walk(sc.Resolve(r)) && sc.FromKeptEntry(p, e)
  {
    if p in sc.Collected(roots) {
      var r, e := CollectedSound(sc, roots, p);
    }
    if exists r, e :: r in roots && e in sc.host.walk(sc.Resolve(r)) && sc.FromKeptEntry(p, e) {
      var r, e :| r in roots && e in sc.host.walk(sc.Resolve(r)) && sc.FromKeptEntry(p, e);
      CollectedComplete(sc, roots, p, r, e);
    }
  }

  /** A collected file comes from a kept entry of the walk of one of the roots. */
  lemma {:induction false} CollectedSound(sc: Scope, roots: seq<Path>, p: Path) returns (r: Path, e: WalkEntry)
    requires p in sc.Collected(roots)
    ensures r in roots && e in sc.host.walk(sc.Resolve(r)) && sc.FromKeptEntry(p, e)
  {
    var init := roots[..|roots| - 1];
    var last := roots[|roots| - 1];
    assert roots == init + [last];
    if p in sc.Collected(init) {
      r, e := CollectedSound(sc, init, p);
    } else {
      r := last;
      e := WalkedSound(sc, sc.host.walk(sc.Resolve(last)), p);
    }
  }

  /** Every file of a kept entry of the walk of a root is collected. */
  lemma {:induction false} CollectedComplete(sc: Scope, roots: seq<Path>, p: Path, r: Path, e: WalkEntry)
    requires r in roots && e in sc.host.walk(sc.Resolve(r)) && sc.FromKeptEntry(p, e)
    ensures p in sc.Collected(roots)
  {
    var init := roots[..|roots| - 1];
    var last := roots[|roots| - 1];
    assert roots == init + [last];
    if r == last {
      WalkedComplete(sc, sc.host.walk(sc.Resolve(last)), p, e);
    } else {
      assert r in init;
      CollectedComplete(sc, init, p, r, e);
    }
  }

  /** The open view with a file's name is read instead of the disk, the first such view winning. */
  lemma SourcePrefersOpenView(sc: Scope, p: Path, i: nat)
    requires i < |sc.open| && sc.open[i].fileName == p && p != ""
    requires forall j :: 0 <= j < i ==> sc.open[j].fileName != p
    ensures sc.Source(p) == Read(sc.open[i].lines)
  {
    assert p in OpenFileNames(sc.open) by {
      assert sc.open[i] in sc.open;
    }
    ViewLinesFirst(sc.open, p, i);
  }

  lemma {:induction false} ViewLinesFirst(open: seq<OpenView>, p: Path, i: nat)
    requires i < |open| && open[i].fileName == p
    requires forall j :: 0 <= j < i ==> open[j].fileName != p
    ensures ViewLines(open, p) == open[i].lines
  {
    if i > 0 {
      ViewLinesFirst(open[1..], p, i - 1);
    }
  }

  /** With the lines read all at once, a file whose read fails adds no findings. */
  lemma FailedFileAddsNothing(sc: Scope, pre: seq<Path>, p: Path, post: seq<Path>)
    requires !sc.variant.KeepsLinesBeforeError() && sc.Source(p).Failed?
    ensures sc.ScanFindings(pre + [p] + post) == sc.ScanFindings(pre) + sc.ScanFindings(post)
  {
    var ff := sc.FileFindings;
    FlatMapConcat(ff, pre + [p], post);
    FlatMapConcat(ff, pre, [p]);
    assert ff(p) == [];
    assert FlatMap(ff, [p]) == [] by {
      assert [p][..0] == [];
    }
  }

  /** Every finding of a scan names one of the scanned files and a line from 1 on. */
  lemma {:induction false} ScanFindingsFrom(sc: Scope, paths: seq<Path>, f: Finding)
    requires f in sc.ScanFindings(paths)
    ensures f.file in paths && f.line >= 1
  {
    var init := paths[..|paths| - 1];
    var last := paths[|paths| - 1];
    assert paths == init + [last];
    assert sc.ScanFindings(paths) == sc.ScanFindings(init) + sc.FileFindings(last);
    if f in sc.ScanFindings(init) {
      ScanFindingsFrom(sc, init, f);
    } else {
      FileFindingsFrom(sc, last, f);
    }
  }

  /** Every finding of a file names that file and a line from 1 on. */
  lemma FileFindingsFrom(sc: Scope, p: Path, f: Finding)
    requires f in sc.FileFindings(p)
    ensures f.file == p && f.line >= 1
  {
    var lines := match sc.Source(p)
      case Read(ls) => ls
      case Failed(before) => before;
    assert f in LinesFindings(p, lines, sc.Matcher());
    LinesFindingsIff(p, lines, sc.Matcher(), f);
    var ms := sc.Matcher()(lines[f.line - 1]);
    LineFindingsIff(p, f.line, ms, f);
    var m :| m in ms && f in MatchFindings(p, f.line, m);
    MatchFindingsIff(p, f.line, m, f);
  }

  lemma WalkedSnoc(sc: Scope, entries: seq<WalkEntry>, j: nat)
    requires j < |entries|
    ensures Elems(sc.Walked(entries[..j + 1])) ==
      Elems(sc.Walked(entries[..j])) + (if sc.DirExcluded(entries[j].dir) then {} else Elems(sc.NamesIn(entries[j])))
  {
    assert entries[..j + 1][..j] == entries[..j];
    ElemsConcat(sc.Walked(entries[..j]), if sc.DirExcluded(entries[j].dir) then [] else sc.NamesIn(entries[j]));
  }

  lemma CollectedSnoc(sc: Scope, roots: seq<Path>, i: nat)
    requires i < |roots|
    ensures Elems(sc.Collected(roots[..i + 1])) ==
      Elems(sc.Collected(roots[..i])) + Elems(sc.Walked(sc.host.walk(sc.Resolve(roots[i]))))
  {
    assert roots[..i + 1][..i] == roots[..i];
    ElemsConcat(sc.Collected(roots[..i]), sc.Walked(sc.host.walk(sc.Resolve(roots[i]))));
  }

  /** Adding one candidate admits its resolved path as well, when that passes. */
  lemma AdmitsAdd(sc: Scope, done: set<Path>, c: Path, q: Path)
    ensures sc.Admits(done + {c}, q) <==> sc.Admits(done, q) || (q == sc.Resolve(c) && sc.Passes(q))
  {
    if sc.Admits(done + {c}, q) && !(q == sc.Resolve(c)) {
      var d :| d in done + {c} && sc.Resolve(d) == q;
      assert d in done;
    }
  }

  /**
   * The state of the de-duplicating loop: the candidates handled so far (`done`) and the
   * rest split the candidate set, `out` holds each admitted path of `done` exactly once,
   * and `seen` is the set of its elements.
   */
  ghost predicate FilterInv(sc: Scope, cands: set<Path>, rest: set<Path>, done: set<Path>,
                            seen: set<Path>, out: seq<Path>, taken: nat) {
    done !! rest && done + rest == cands &&
    seen == Elems(out) && Distinct(out) &&
    (forall q :: q in seen <==> sc.Admits(done, q)) &&
    |out| <= taken && taken + |rest| == |cands|
  }

  /** Handling one more candidate keeps the loop state: skipped, or yielded once. */
  lemma FilterStep(sc: Scope, cands: set<Path>, rest: set<Path>, done: set<Path>,
                   seen: set<Path>, out: seq<Path>, taken: nat, c: Path)
    requires FilterInv(sc, cands, rest, done, seen, out, taken) && c in rest
    ensures var p := sc.Resolve(c);
      (p in seen || !sc.Passes(p) ==> FilterInv(sc, cands, rest - {c}, done + {c}, seen, out, taken + 1)) &&
      (p !in seen && sc.Passes(p) ==> FilterInv(sc, cands, rest - {c}, done + {c}, seen + {p}, out + [p], taken + 1))
  {
    var p := sc.Resolve(c);
    if p in seen || !sc.Passes(p) {
      FilterSkip(sc, cands, rest, done, seen, out, taken, c);
    } else {
      FilterYield(sc, cands, rest, done, seen, out, taken, c);
    }
  }

  lemma FilterSplit(cands: set<Path>, rest: set<Path>, done: set<Path>, c: Path)
    requires done !! rest && done + rest == cands && c in rest
    ensures done + {c} !! rest - {c} && (done + {c}) + (rest - {c}) == cands
    ensures |rest - {c}| == |rest| - 1
  {
  }

  lemma FilterSkip(sc: Scope, cands: set<Path>, rest: set<Path>, done: set<Path>,
                   seen: set<Path>, out: seq<Path>, taken: nat, c: Path)
    requires FilterInv(sc, cands, rest, done, seen, out, taken) && c in rest
    requires sc.Resolve(c) in seen || !sc.Passes(sc.Resolve(c))
    ensures FilterInv(sc, cands, rest - {c}, done + {c}, seen, out, taken + 1)
  {
    FilterSplit(cands, rest, done, c);
    forall q ensures q in seen <==> sc.Admits(done + {c}, q) {
      AdmitsAdd(sc, done, c, q);
    }
  }

  lemma FilterYield(sc: Scope, cands: set<Path>, rest: set<Path>, done: set<Path>,
                    seen: set<Path>, out: seq<Path>, taken: nat, c: Path)
    requires FilterInv(sc, cands, rest, done, seen, out, taken) && c in rest
    requires sc.Resolve(c) !in seen && sc.Passes(sc.Resolve(c))
    ensures FilterInv(sc, cands, rest - {c}, done + {c}, seen + {sc.Resolve(c)}, out + [sc.Resolve(c)], taken + 1)
  {
    var p := sc.Resolve(c);
    FilterSplit(cands, rest, done, c);
    forall q ensures q in seen + {p} <==> sc.Admits(done + {c}, q) {
      AdmitsAdd(sc, done, c, q);
    }
    DistinctSnoc(out, p);
    ElemsConcat(out, [p]);
  }

  lemma DistinctSnoc<T>(s: seq<T>, x: T)
    requires Distinct(s) && x !in s
    ensures Distinct(s + [x])
  {
  }

  /**
   * `Engine`: the roots to walk, the explicitly given files (a set that `files()` adds the
   * walked files to) and the matchers compiled from the settings.
   */
  class Engine {
    const scope: Scope
    const openFiles: seq<Path>
    const dirpaths: seq<Path>
    var filepaths: set<Path>

    /** The open-file list is the one computed from the open views. */
    predicate Valid() {
      openFiles == OpenFileNames(scope.open)
    }

    /**
     * `Engine.__init__`: the pattern texts are merged into one alternation and the exclude
     * globs compiled through `fn_to_regex`; every matcher ignores case unless
     * `case_sensitive` is set. `open` is the window's views, none without a window.
     */
    constructor (dirpaths: seq<Path>, filepaths: seq<Path>, cfg: Config, host: Host,
                 open: seq<OpenView>, variant: Variant)
      ensures Valid()
      ensures this.dirpaths == dirpaths && this.filepaths == Elems(filepaths)
      ensures scope.patterns == Regex(MergeRegexes(cfg.patterns, variant), !cfg.caseSensitive)
      ensures scope.excludeFiles == Regex(ExcludeRegex(cfg.excludeFiles, host.translate, variant), !cfg.caseSensitive)
      ensures scope.excludeFolders == Regex(ExcludeRegex(cfg.excludeFolders, host.translate, variant), !cfg.caseSensitive)
      ensures scope.host == host && scope.open == open && scope.variant == variant
      ensures scope.encoding == cfg.encoding && scope.resolveSymlinks == cfg.resolveSymlinks
    {
      var ignoreCase := !cfg.caseSensitive;
      this.dirpaths := dirpaths;
      this.filepaths := Elems(filepaths);
      scope := Scope(
        host, cfg.resolveSymlinks,
        Regex(MergeRegexes(cfg.patterns, variant), ignoreCase),
        Regex(ExcludeRegex(cfg.excludeFiles, host.translate, variant), ignoreCase),
        Regex(ExcludeRegex(cfg.excludeFolders, host.translate, variant), ignoreCase),
        open, cfg.encoding, variant);
      openFiles := OpenFileNames(open);
    }

    /**
     * `Engine.files`: first every file of every directory walked below each resolved root
     * is added to `filepaths`, the files of excluded directories left out; then the
     * candidates are resolved, filtered and de-duplicated.
     */
    method Files() returns (out: seq<Path>)
      modifies this
      ensures filepaths == old(filepaths) + Elems(scope.Collected(dirpaths))
      ensures Distinct(out) && |out| <= |filepaths|
      ensures forall p :: p in out <==> scope.Admits(filepaths, p)
    {
      var i := 0;
      while i < |dirpaths|
        invariant 0 <= i <= |dirpaths|
        invariant filepaths == old(filepaths) + Elems(scope.Collected(dirpaths[..i]))
      {
        AddWalked(scope.host.walk(scope.Resolve(dirpaths[i])));
        CollectedSnoc(scope, dirpaths, i);
        i := i + 1;
      }
      assert dirpaths[..i] == dirpaths;
      out := Filter(filepaths);
    }

    /**
     * The loop of `Engine.files` over the walk of one root: the files of every directory
     * whose path plus `os.sep` does not match the folder exclude are added. The walk
     * goes on below an excluded directory; each entry is tested on its own.
     */
    method AddWalked(entries: seq<WalkEntry>)
      modifies this
      ensures filepaths == old(filepaths) + Elems(scope.Walked(entries))
    {
      var j := 0;
      while j < |entries|
        invariant 0 <= j <= |entries|
        invariant filepaths == old(filepaths) + Elems(scope.Walked(entries[..j]))
      {
        WalkedSnoc(scope, entries, j);
        if scope.DirExcluded(entries[j].dir) {
          j := j + 1;
          continue;
        }
        AddEntry(entries[j]);
        j := j + 1;
      }
      assert entries[..j] == entries;
    }

    /** The innermost loop of `Engine.files`: every file an entry lists, joined to its directory. */
    method AddEntry(e: WalkEntry)
      modifies this
      ensures filepaths == old(filepaths) + Elems(scope.NamesIn(e))
    {
      ghost var names := scope.NamesIn(e);
      var k := 0;
      while k < |e.files|
        invariant 0 <= k <= |e.files|
        invariant filepaths == old(filepaths) + Elems(names[..k])
      {
        assert names[k] == scope.host.join(e.dir, e.files[k]);
        assert names[..k + 1] == names[..k] + [names[k]];
        ElemsConcat(names[..k], [names[k]]);
        filepaths := filepaths + {scope.host.join(e.dir, e.files[k])};
        k := k + 1;
      }
      assert names[..k] == names;
    }

    /**
     * The second loop of `Engine.files`, over the candidate set in whatever order it is
     * iterated: each candidate is resolved and yielded unless it was seen already or
     * matches one of the exclude patterns. Every admitted path comes out exactly once.
     */
    method Filter(cands: set<Path>) returns (out: seq<Path>)
      ensures Distinct(out)
      ensures forall p :: p in out <==> scope.Admits(cands, p)
      ensures |out| <= |cands|
    {
      var seen: set<Path> := {};
      var rest := cands;
      ghost var done: set<Path> := {};
      ghost var taken: nat := 0;
      out := [];
      while rest != {}
        invariant FilterInv(scope, cands, rest, done, seen, out, taken)
        decreases |rest|
      {
        var c :| c in rest;
        var p := scope.Resolve(c);
        FilterStep(scope, cands, rest, done, seen, out, taken, c);
        rest := rest - {c};
        done := done + {c};
        taken := taken + 1;
        if p in seen {
          continue;
        }
        if scope.host.search(scope.excludeFolders, p) {
          continue;
        }
        if scope.host.search(scope.excludeFiles, p) {
          continue;
        }
        seen := seen + {p};
        out := out + [p];
      }
      assert done == cands;
    }

    /** The lines of a file: those of the first open view with its name, else what the disk gives. */
    method ReadLines(p: Path) returns (r: ReadOutcome)
      requires Valid()
      ensures r == scope.Source(p)
    {
      if p in openFiles {
        var lines := [];
        var k := 0;
        while k < |scope.open|
          invariant 0 <= k <= |scope.open|
          invariant ViewLines(scope.open, p) == ViewLines(scope.open[k..], p)
          invariant lines == []
        {
          if scope.open[k].fileName == p {
            lines := scope.open[k].lines;
            break;
          }
          assert scope.open[k..][1..] == scope.open[k + 1..];
          k := k + 1;
        }
        r := Read(lines);
      } else {
        r := scope.host.read(p, scope.encoding);
      }
    }

    /** The findings of one match, one per group that took part. */
    method FindingsOfMatch(p: Path, num: int, groups: GroupDict) returns (fs: seq<Finding>)
      ensures fs == MatchFindings(p, num, groups)
    {
      fs := [];
      var k := 0;
      while k < |groups|
        invariant 0 <= k <= |groups|
        invariant fs == MatchFindings(p, num, groups[..k])
      {
        assert groups[..k + 1][..k] == groups[..k];
        var (patt, value) := groups[k];
        k := k + 1;
        if value.None? {
          continue;
        }
        var note := value.value;
        fs := fs + [Finding(p, patt, note, num, PriorityOf(note))];
      }
      assert groups[..k] == groups;
    }

    /** The findings of all matches of the patterns on one line. */
    method FindingsOfLine(p: Path, num: int, line: string) returns (fs: seq<Finding>)
      ensures fs == LineFindings(p, num, scope.host.finditer(scope.patterns, line))
    {
      var matches := scope.host.finditer(scope.patterns, line);
      fs := [];
      var k := 0;
      while k < |matches|
        invariant 0 <= k <= |matches|
        invariant fs == LineFindings(p, num, matches[..k])
      {
        assert matches[..k + 1][..k] == matches[..k];
        var more := FindingsOfMatch(p, num, matches[k]);
        fs := fs + more;
        k := k + 1;
      }
      assert matches[..k] == matches;
    }

    /** The findings of the lines of a file, numbered from 1. */
    method FindingsOfLines(p: Path, lines: seq<string>) returns (fs: seq<Finding>)
      ensures fs == LinesFindings(p, lines, scope.Matcher())
    {
      fs := [];
      var k := 0;
      while k < |lines|
        invariant 0 <= k <= |lines|
        invariant fs == LinesFindings(p, lines[..k], scope.Matcher())
      {
        assert lines[..k + 1][..k] == lines[..k];
        var more := FindingsOfLine(p, k + 1, lines[k]);
        fs := fs + more;
        k := k + 1;
      }
      assert lines[..k] == lines;
    }

    /** The findings of one file; a failed read is swallowed. */
    method FindingsOfFile(p: Path) returns (fs: seq<Finding>)
      requires Valid()
      ensures fs == scope.FileFindings(p)
    {
      var src := ReadLines(p);
      match src {
        case Read(lines) =>
          fs := FindingsOfLines(p, lines);
        case Failed(before) =>
          if scope.variant.KeepsLinesBeforeError() {
            fs := FindingsOfLines(p, before);
          } else {
            fs := [];
          }
      }
    }

    /**
     * `Engine.extract`: the findings of every file in order, and one increment of the
     * thread's counter per file, whether or not it could be read.
     */
    method Extract(files: seq<Path>, t: Thread) returns (results: seq<Finding>)
      requires Valid()
      modifies t
      ensures t.i == old(t.i) + |files|
      ensures results == scope.ScanFindings(files)
    {
      results := [];
      var k := 0;
      while k < |files|
        invariant 0 <= k <= |files|
        invariant t.i == old(t.i) + k
        invariant results == scope.ScanFindings(files[..k])
      {
        assert files[..k + 1][..k] == files[..k];
        var fs := FindingsOfFile(files[k]);
        results := results + fs;
        t.Increment();
        k := k + 1;
      }
      assert files[..k] == files;
    }
  }

  /** `Thread`: the engine it runs and the number of files handled so far. */
  class Thread {
    var i: nat
    const engine: Engine

    constructor (engine: Engine)
      ensures i == 0 && this.engine == engine
    {
      i := 0;
      this.engine := engine;
    }

    /** `Thread.increment`: one more file handled. */
    method Increment()
      modifies this
      ensures i == old(i) + 1
    {
      i := i + 1;
    }

    /**
     * `Thread.thread`: what it hands to the callback, the results of `process()` and the
     * counter, which has grown by the number of files scanned.
     */
    method Run() returns (paths: seq<Path>, results: seq<Finding>, count: nat)
      requires engine.Valid()
      modifies this, engine
      ensures i == count == old(i) + |paths|
      ensures engine.filepaths == old(engine.filepaths) + Elems(engine.scope.Collected(engine.dirpaths))
      ensures Distinct(paths) && forall p :: p in paths <==> engine.scope.Admits(engine.filepaths, p)
      ensures results == engine.scope.ScanFindings(paths)
    {
      paths := engine.Files();
      results := engine.Extract(paths, this);
      count := i;
    }
  }

  /** A scan from a fresh thread reports as many files as it yielded paths. */
  method Scan(engine: Engine) returns (paths: seq<Path>, results: seq<Finding>, count: nat)
    requires engine.Valid()
    modifies engine
    ensures count == |paths| && Distinct(paths)
    ensures forall p :: p in paths <==>
      engine.scope.Admits(old(engine.filepaths) + Elems(engine.scope.Collected(engine.dirpaths)), p)
    ensures results == engine.scope.ScanFindings(paths)
  {
    var t := new Thread(engine);
    paths, results, count := t.Run();
  }
}
