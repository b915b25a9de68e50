/**
 * How `draw_file` labels a finding (plugin/TodoReview.py:351-368) and the column width
 * `sort` derives from the labels (plugin/TodoReview.py:301-306).
 */
module Labels {
  import opened Common
  import opened Text
  import opened Configuration
  import opened System
  import opened Extraction
  import opened Paths

  // ---------------------------------------------------------------------------
  // draw_file

  /** How findings are drawn: the render settings and the variant. */
  datatype Style = Style(
    includeFolder: bool,
    depth: Depth,
    relative: Path -> Path,
    maxSpaces: int,
    variant: Variant)

  /**
   * The file part of a finding's label: the base name, or with `render_include_folder`
   * the folder-relative path ("auto", given as `relative`) or the last `depth` folders.
   */
  function Shown(st: Style, file: Path): string {
    if !st.includeFolder then Basename(file)
    else match st.depth
      case Auto => Replace(st.relative(file), "\\", "/")
      case Levels(d) =>
        Join("/", SliceFromEnd(Split(Replace(Dirname(file), "\\", "/"), '/'), d) + [Basename(file)])
  }

  /** `"%f:%l".replace("%f", s).replace("%l", str(line))`, as the code writes it. */
  function Location(s: string, line: int): string {
    Replace(Replace("%f:%l", "%f", s), "%l", Decimal(line))
  }

  /** The location the template is meant to give: the text, a colon, the line number. */
  function PlainLocation(s: string, line: int): string {
    s + ":" + Decimal(line)
  }

  /** `draw_file` as written; the report draws and measures with this one. */
  function LabelAsWritten(st: Style, f: Finding): string {
    Location(Shown(st, f.file), f.line)
  }

  /** `draw_file` as intended: the shown text, a colon, the line number. */
  function Label(st: Style, f: Finding): string {
    PlainLocation(Shown(st, f.file), f.line)
  }

  lemma DecimalNoPercent(n: int)
    ensures '%' !in Decimal(n) && ':' !in Decimal(n) && ',' !in Decimal(n)
  {
    var d := Digits(if n < 0 then -n else n);
    assert forall i :: 0 <= i < |d| ==> d[i] != '%' && d[i] != ':' && d[i] != ',';
  }

  // The template split around its placeholders, away from any `Replace` term.
  lemma LocationPieces() ensures "%f:%l" == "%f" + ":%l" {}
  lemma LineNumberPieces() ensures ":%l" == ":" + "%l" + "" {}

  lemma FillFile(s: string)
    ensures Replace("%f:%l", "%f", s) == s + ":%l"
  {
    LocationPieces();
    ReplaceAtFront("%f:%l", "%f", ":%l", s);
  }

  lemma FillLine(s: string, n: string)
    requires '%' !in n
    ensures Replace(s + ":%l", "%l", n) == Replace(s, "%l", n) + ":" + n
  {
    SeamFree(s, ":%l", "%l");
    ReplaceConcat(s, ":%l", "%l", n);
    LineNumberPieces();
    ReplaceIn(":%l", ":", "%l", "", n);
  }

  /**
   * The template fills `%f` first and then scans the result for `%l`, so the text itself
   * is rescanned: the location is the text with every `%l` replaced by the line number.
   */
  lemma LocationRescans(s: string, line: int)
    ensures Location(s, line) == Replace(s, "%l", Decimal(line)) + ":" + Decimal(line)
  {
    DecimalNoPercent(line);
    FillFile(s);
    FillLine(s, Decimal(line));
  }

  /** Without `%l` in the text the template gives what it is meant to. */
  lemma LocationPlain(s: string, line: int)
    requires !Contains(s, "%l")
    ensures Location(s, line) == PlainLocation(s, line)
  {
    LocationRescans(s, line);
    ReplaceAbsent(s, "%l", Decimal(line));
  }

  /**
   * Without `render_include_folder` a file name without a slash is drawn as it is, except
   * that the template rescans it for `%l`.
   */
  lemma LabelOfName(st: Style, f: Finding)
    requires !st.includeFolder && '/' !in f.file
    ensures LabelAsWritten(st, f) == Replace(f.file, "%l", Decimal(f.line)) + ":" + Decimal(f.line)
    ensures Label(st, f) == f.file + ":" + Decimal(f.line)
  {
    LocationRescans(f.file, f.line);
  }

  /** A file name containing `%l` once is drawn with the line number spliced into it. */
  lemma LabelSplices(st: Style, f: Finding, a: string, b: string)
    requires !st.includeFolder && f.file == a + "%l" + b
    requires '%' !in a && '%' !in b && '/' !in a && '/' !in b
    ensures LabelAsWritten(st, f) == a + Decimal(f.line) + b + ":" + Decimal(f.line)
    ensures Label(st, f) == f.file + ":" + Decimal(f.line)
  {
    LabelOfName(st, f);
    ReplaceOnce(a, "%l", b, Decimal(f.line));
  }

  /** The file "a%lb.py" at line 3 is drawn as "a3b.py:3". */
  lemma LabelMangled(st: Style, f: Finding)
    requires !st.includeFolder && f.file == "a%lb.py" && f.line == 3
    ensures LabelAsWritten(st, f) == "a" + "3" + "b.py" + ":" + "3"
    ensures Label(st, f) == "a%lb.py" + ":" + "3"
  {
    assert f.file == "a" + "%l" + "b.py";
    assert Decimal(3) == "3";
    LabelSplices(st, f, "a", "b.py");
  }

  /** The drawn label is the shown text with its `%l` replaced; without `%l` it is as intended. */
  lemma LabelRescans(st: Style, f: Finding)
    ensures LabelAsWritten(st, f) == Replace(Shown(st, f.file), "%l", Decimal(f.line)) + ":" + Decimal(f.line)
    ensures !Contains(Shown(st, f.file), "%l") ==> LabelAsWritten(st, f) == Label(st, f)
  {
    LocationRescans(Shown(st, f.file), f.line);
    if !Contains(Shown(st, f.file), "%l") {
      LocationPlain(Shown(st, f.file), f.line);
    }
  }

  /**
   * Without `render_include_folder` the label is the base name and the line, the drawn
   * one with the base name rescanned for `%l`.
   */
  lemma LabelBasename(st: Style, f: Finding)
    requires !st.includeFolder
    ensures Label(st, f) == Basename(f.file) + ":" + Decimal(f.line)
    ensures LabelAsWritten(st, f) == Replace(Basename(f.file), "%l", Decimal(f.line)) + ":" + Decimal(f.line)
  {
    LabelRescans(st, f);
  }

  /** Depth 0 keeps every folder, because `f[-0:]` is the whole list. */
  lemma LabelDepthZero(st: Style, f: Finding)
    requires st.includeFolder && st.depth == Levels(0)
    ensures var shown := Replace(Dirname(f.file), "\\", "/") + "/" + Basename(f.file);
      Shown(st, f.file) == shown &&
      Label(st, f) == shown + ":" + Decimal(f.line) &&
      LabelAsWritten(st, f) == Replace(shown, "%l", Decimal(f.line)) + ":" + Decimal(f.line)
  {
    var dir := Replace(Dirname(f.file), "\\", "/");
    var parts := Split(dir, '/');
    JoinSnoc("/", parts, Basename(f.file));
    JoinSplit(dir, '/');
    LabelRescans(st, f);
  }

  /** With a positive depth the label keeps the last `depth` folders, or all when there are fewer. */
  lemma LabelDepth(st: Style, f: Finding, d: int)
    requires st.includeFolder && st.depth == Levels(d) && d > 0
    ensures var parts := Split(Replace(Dirname(f.file), "\\", "/"), '/');
      var kept := if d < |parts| then d else |parts|;
      var shown := Join("/", parts[|parts| - kept..] + [Basename(f.file)]);
      Shown(st, f.file) == shown &&
      Label(st, f) == shown + ":" + Decimal(f.line) &&
      LabelAsWritten(st, f) == Replace(shown, "%l", Decimal(f.line)) + ":" + Decimal(f.line)
  {
    LabelRescans(st, f);
  }

  // ---------------------------------------------------------------------------
  // The column width computed in sort

  /** The drawn labels of the findings, in order. */
  function Labels(st: Style, items: seq<Finding>): (r: seq<string>)
    ensures |r| == |items|
    ensures forall i :: 0 <= i < |items| ==> r[i] == LabelAsWritten(st, items[i])
  {
    seq(|items|, i requires 0 <= i < |items| => LabelAsWritten(st, items[i]))
  }

  /** The length of the longest text, 0 for none. */
  function Longest(ls: seq<string>): nat {
    if ls == [] then 0
    else
      var m := Longest(ls[..|ls| - 1]);
      if |ls[|ls| - 1]| > m then |ls[|ls| - 1]| else m
  }

  /** No text is longer than `Longest`. */
  lemma {:induction false} LongestBounds(ls: seq<string>, i: int)
    requires 0 <= i < |ls|
    ensures |ls[i]| <= Longest(ls)
  {
    if i < |ls| - 1 {
      var init := ls[..|ls| - 1];
      LongestBounds(init, i);
      assert init[i] == ls[i];
    }
  }

  /** Some text is as long as `Longest`, unless there is none. */
  lemma {:induction false} LongestAttained(ls: seq<string>) returns (i: int)
    requires ls != []
    ensures 0 <= i < |ls| && |ls[i]| == Longest(ls)
  {
    var init := ls[..|ls| - 1];
    if init == [] || |ls[|ls| - 1]| > Longest(init) {
      i := |ls| - 1;
    } else {
      i := LongestAttained(init);
      assert init[i] == ls[i];
    }
  }

  /** The length of the longest drawn label, 0 for no findings. */
  function MaxLabel(st: Style, items: seq<Finding>): nat {
    Longest(Labels(st, items))
  }

  /** `MaxLabel` bounds every label and is attained by one, when there are findings. */
  lemma MaxLabelIsMax(st: Style, items: seq<Finding>)
    ensures forall i :: 0 <= i < |items| ==> |LabelAsWritten(st, items[i])| <= MaxLabel(st, items)
    ensures items == [] ==> MaxLabel(st, items) == 0
    ensures items != [] ==> exists i :: 0 <= i < |items| && |LabelAsWritten(st, items[i])| == MaxLabel(st, items)
  {
    var ls := Labels(st, items);
    forall i | 0 <= i < |items| ensures |LabelAsWritten(st, items[i])| <= MaxLabel(st, items) {
      LongestBounds(ls, i);
    }
    if items != [] {
      var i := LongestAttained(ls);
    }
  }

  /** `self.largest`: the longest drawn label, capped at `render_maxspaces`, plus 6. */
  method Width(items: seq<Finding>, st: Style) returns (largest: int)
    ensures largest == (if MaxLabel(st, items) < st.maxSpaces then MaxLabel(st, items) else st.maxSpaces) + 6
  {
    ghost var ls := Labels(st, items);
    largest := 0;
    for i := 0 to |items|
      invariant largest == Longest(ls[..i])
    {
      assert ls[..i + 1][..i] == ls[..i];
      var l := |LabelAsWritten(st, items[i])|;
      if l > largest {
        largest := l;
      }
    }
    assert ls[..|items|] == ls;
    largest := (if largest < st.maxSpaces then largest else st.maxSpaces) + 6;
  }
}
