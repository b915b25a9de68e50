/**
 * The report: `TodoReviewRenderCommand` (plugin/TodoReview.py:272-368) writes a header
 * and one line per finding into the results view and records a region per line;
 * `TodoReviewResultsCommand` (plugin/TodoReview.py:371-420) opens or moves the
 * selection over those regions.
 */
module Report {
  import opened Common
  import opened Text
  import opened Extraction
  import opened Organize
  import opened Navigation
  import opened Labels
  import opened Lines

  // ---------------------------------------------------------------------------
  // draw_results as a function of the buffer it appends to

  /** What `draw_results` has built so far: the view text, the regions and their findings. */
  datatype Buffer = Buffer(text: string, regions: seq<(int, int)>, items: seq<Finding>)

  function AppendText(b: Buffer, s: string): Buffer {
    b.(text := b.text + s)
  }

  /** Inserting one item line and recording the region it occupies. */
  function AppendItem(b: Buffer, line: string, f: Finding): Buffer {
    Buffer(b.text + line, b.regions + [(|b.text|, |b.text| + |line|)], b.items + [f])
  }

  lemma Assoc<T>(x: seq<T>, y: seq<T>, z: seq<T>)
    ensures x + (y + z) == (x + y) + z
  {
  }

  /** The texts one after the other. */
  function Concat(ls: seq<string>): string {
    if ls == [] then "" else Concat(ls[..|ls| - 1]) + ls[|ls| - 1]
  }

  /** The lines inserted one after the other, each with its region and finding. */
  function DrawLines(b: Buffer, lines: seq<string>, items: seq<Finding>): (r: Buffer)
    requires |lines| == |items|
    ensures |r.regions| == |b.regions| + |items| && |r.items| == |b.items| + |items|
  {
    if items == [] then b
    else
      var n := |items| - 1;
      AppendItem(DrawLines(b, lines[..n], items[..n]), lines[n], items[n])
  }

  /** Drawing one more line appends that line to what the lines before it drew. */
  lemma DrawLinesSnoc(b: Buffer, lines: seq<string>, items: seq<Finding>, j: int)
    requires |lines| == |items| && 0 <= j < |lines|
    ensures DrawLines(b, lines[..j + 1], items[..j + 1]) == AppendItem(DrawLines(b, lines[..j], items[..j]), lines[j], items[j])
  {
    assert lines[..j + 1][..j] == lines[..j] && items[..j + 1][..j] == items[..j];
  }

  /** The region lies inside the text, is longer than the note and ends with the note and a newline. */
  predicate Covers(text: string, r: (int, int), f: Finding) {
    0 <= r.0 < r.1 <= |text| && r.1 - r.0 >= |f.note| + 1 &&
    text[r.1 - |f.note| - 1..r.1] == f.note + "\n"
  }

  /**
   * One region per finding, each covering a line that ends with its finding's note, in
   * increasing order and disjoint.
   */
  predicate Laid(b: Buffer) {
    |b.regions| == |b.items| &&
    (forall k :: 0 <= k < |b.regions| ==> Covers(b.text, b.regions[k], b.items[k])) &&
    (forall j, k :: 0 <= j < k < |b.regions| ==> b.regions[j].1 <= b.regions[k].0)
  }

  lemma CoversExtend(text: string, s: string, r: (int, int), f: Finding)
    requires Covers(text, r, f)
    ensures Covers(text + s, r, f)
  {
    assert (text + s)[r.1 - |f.note| - 1..r.1] == text[r.1 - |f.note| - 1..r.1];
  }

  /** Every line is longer than its finding's note and ends with the note and a newline. */
  predicate Ended(lines: seq<string>, items: seq<Finding>) {
    |lines| == |items| && forall j :: 0 <= j < |lines| ==> EndsWithNote(lines[j], items[j].note)
  }

  /** The line ends with the note and a newline. */
  predicate EndsWithNote(t: string, note: string) {
    |t| > |note| && t[|t| - |note| - 1..] == note + "\n"
  }

  lemma AppendTextLaid(b: Buffer, s: string)
    requires Laid(b)
    ensures Laid(AppendText(b, s))
  {
    forall k | 0 <= k < |b.regions| ensures Covers(b.text + s, b.regions[k], b.items[k]) {
      CoversExtend(b.text, s, b.regions[k], b.items[k]);
    }
  }

  lemma AppendItemLaid(b: Buffer, line: string, f: Finding)
    requires Laid(b)
    requires |line| > |f.note| && line[|line| - |f.note| - 1..] == f.note + "\n"
    ensures Laid(AppendItem(b, line, f))
  {
    var r := AppendItem(b, line, f);
    var n := |b.regions|;
    forall k | 0 <= k < n ensures Covers(r.text, r.regions[k], r.items[k]) {
      CoversExtend(b.text, line, b.regions[k], b.items[k]);
    }
    assert r.text[|b.text| + |line| - |f.note| - 1..|b.text| + |line|] == line[|line| - |f.note| - 1..];
    assert Covers(r.text, r.regions[n], r.items[n]);
  }

  /** Lines that end with their notes keep the layout. */
  lemma {:induction false} DrawLinesLaid(b: Buffer, lines: seq<string>, items: seq<Finding>)
    requires Laid(b) && Ended(lines, items)
    ensures Laid(DrawLines(b, lines, items))
  {
    if items != [] {
      var n := |items| - 1;
      assert Ended(lines[..n], items[..n]) by {
        forall j | 0 <= j < n ensures lines[..n][j] == lines[j] && items[..n][j] == items[j] { }
      }
      DrawLinesLaid(b, lines[..n], items[..n]);
      AppendItemLaid(DrawLines(b, lines[..n], items[..n]), lines[n], items[n]);
    }
  }

  /**
   * Drawing lines appends them to the text and their findings to the findings, and adds
   * one region per line after the regions already recorded.
   */
  lemma {:induction false} DrawLinesText(b: Buffer, lines: seq<string>, items: seq<Finding>)
    requires |lines| == |items|
    ensures var r := DrawLines(b, lines, items);
      r.text == b.text + Concat(lines) && r.items == b.items + items &&
      |r.regions| == |b.regions| + |lines| && r.regions[..|b.regions|] == b.regions
  {
    if items != [] {
      var n := |items| - 1;
      DrawLinesText(b, lines[..n], items[..n]);
      var c := DrawLines(b, lines[..n], items[..n]);
      assert b.text + Concat(lines) == (b.text + Concat(lines[..n])) + lines[n];
      assert b.items + items == (b.items + items[..n]) + [items[n]];
      assert (c.regions + [(|c.text|, |c.text| + |lines[n]|)])[..|b.regions|] == c.regions[..|b.regions|];
    }
  }

  /** The first `k` texts run into the rest: their concatenation is a prefix. */
  lemma {:induction false} ConcatPrefix(ls: seq<string>, k: int)
    requires 0 <= k <= |ls|
    ensures Concat(ls[..k]) <= Concat(ls)
  {
    if k < |ls| {
      var n := |ls| - 1;
      assert ls[..n][..k] == ls[..k];
      ConcatPrefix(ls[..n], k);
    } else {
      assert ls[..k] == ls;
    }
  }

  /** The `j`-th line's region starts where the lines before it end and covers exactly it. */
  lemma {:induction false} DrawLinesRegion(b: Buffer, lines: seq<string>, items: seq<Finding>, j: int)
    requires |lines| == |items| && 0 <= j < |lines|
    ensures var r := DrawLines(b, lines, items);
      |b.regions| + j < |r.regions| &&
      r.regions[|b.regions| + j] == (|b.text| + |Concat(lines[..j])|, |b.text| + |Concat(lines[..j])| + |lines[j]|)
  {
    var n := |items| - 1;
    var c := DrawLines(b, lines[..n], items[..n]);
    var r := DrawLines(b, lines, items);
    assert r.regions == c.regions + [(|c.text|, |c.text| + |lines[n]|)];
    if j < n {
      DrawLinesRegion(b, lines[..n], items[..n], j);
      assert lines[..n][..j] == lines[..j];
      assert r.regions[|b.regions| + j] == c.regions[|b.regions| + j];
    } else {
      DrawLinesText(b, lines[..n], items[..n]);
      assert lines[..n] == lines[..j];
      assert |c.text| == |b.text| + |Concat(lines[..j])|;
    }
  }

  /** The text of the `j`-th region is the `j`-th line. */
  lemma DrawLinesAt(b: Buffer, lines: seq<string>, items: seq<Finding>, j: int)
    requires |lines| == |items| && 0 <= j < |lines|
    ensures var r := DrawLines(b, lines, items);
      |b.regions| + j < |r.regions| &&
      0 <= r.regions[|b.regions| + j].0 <= r.regions[|b.regions| + j].1 <= |r.text| &&
      r.text[r.regions[|b.regions| + j].0..r.regions[|b.regions| + j].1] == lines[j]
  {
    DrawLinesText(b, lines, items);
    DrawLinesRegion(b, lines, items, j);
    ConcatPrefix(lines, j + 1);
    assert Concat(lines[..j + 1]) == Concat(lines[..j]) + lines[j] by {
      assert lines[..j + 1][..j] == lines[..j];
    }
    PrefixPrepend(b.text, Concat(lines[..j]) + lines[j], Concat(lines));
    Assoc(b.text, Concat(lines[..j]), lines[j]);
    SliceOfPrefix(b.text + Concat(lines), b.text + Concat(lines[..j]), lines[j]);
  }

  lemma PrefixPrepend<T>(a: seq<T>, x: seq<T>, y: seq<T>)
    requires x <= y
    ensures a + x <= a + y
  {
    assert (a + y)[..|a + x|] == a + x;
  }

  /** The part after a prefix `pre` of a text that runs on with `x` is `x`. */
  lemma SliceOfPrefix<T>(t: seq<T>, pre: seq<T>, x: seq<T>)
    requires pre + x <= t
    ensures t[|pre|..|pre| + |x|] == x
  {
    assert t[|pre|..|pre| + |x|] == (pre + x)[|pre|..];
  }

  // ---------------------------------------------------------------------------
  // Groups

  /**
   * How `draw_results` writes the item numbered `idx` (counting from 1 in its group):
   * the number, the label from `draw_file`, the padding to `self.largest`, the note.
   */
  type LineFormat = (int, Finding) -> string

  /** The line format of the report: `ItemText` with the render style and the width. */
  function ItemFormat(st: Style, largest: int): LineFormat {
    (idx: int, f: Finding) => ItemText(st, idx, f, largest)
  }

  /** The item lines of a group, numbered from 1. */
  function ItemLines(format: LineFormat, items: seq<Finding>): (r: seq<string>)
    ensures |r| == |items|
    ensures forall j :: 0 <= j < |items| ==> r[j] == format(j + 1, items[j])
  {
    seq(|items|, j requires 0 <= j < |items| => format(j + 1, items[j]))
  }

  /** Every line the format writes ends with the finding's note and a newline. */
  ghost predicate EndsWithNotes(format: LineFormat) {
    forall idx: int, f: Finding :: EndsWithNote(format(idx, f), f.note)
  }

  lemma EndsAfterSpace(t: string, note: string)
    requires |t| > |note| + 1 && t[|t| - |note| - 2..] == " " + note + "\n"
    ensures EndsWithNote(t, note)
  {
    assert t[|t| - |note| - 1..] == t[|t| - |note| - 2..][1..];
  }

  /** The report's item lines end with their notes. */
  lemma ItemFormatEnds(st: Style, largest: int)
    ensures EndsWithNotes(ItemFormat(st, largest))
  {
    var format := ItemFormat(st, largest);
    forall idx: int, f: Finding ensures EndsWithNote(format(idx, f), f.note) {
      ItemLineEnds(st, largest, idx, f);
    }
  }

  lemma ItemLineEnds(st: Style, largest: int, idx: int, f: Finding)
    ensures EndsWithNote(ItemText(st, idx, f, largest), f.note)
  {
    ItemTextEnds(st, idx, f, largest);
    EndsAfterSpace(ItemText(st, idx, f, largest), f.note);
  }

  lemma ItemLinesEnded(format: LineFormat, items: seq<Finding>)
    requires EndsWithNotes(format)
    ensures Ended(ItemLines(format, items), items)
  {
  }

  /** One group: its header, then its item lines. */
  function DrawGroup(b: Buffer, format: LineFormat, g: Group): (r: Buffer)
    ensures |r.regions| - |r.items| == |b.regions| - |b.items|
  {
    DrawLines(AppendText(b, Header(g)), ItemLines(format, g.1), g.1)
  }

  function DrawGroups(b: Buffer, format: LineFormat, gs: seq<Group>): (r: Buffer)
    ensures |r.regions| - |r.items| == |b.regions| - |b.items|
  {
    if gs == [] then b else DrawGroup(DrawGroups(b, format, gs[..|gs| - 1]), format, gs[|gs| - 1])
  }

  /** The text a group adds: its header and its item lines. */
  function GroupText(format: LineFormat, g: Group): string {
    Header(g) + Concat(ItemLines(format, g.1))
  }

  function GroupsText(format: LineFormat, gs: seq<Group>): string {
    if gs == [] then "" else GroupsText(format, gs[..|gs| - 1]) + GroupText(format, gs[|gs| - 1])
  }

  /** Drawing one more group draws it after the groups before it. */
  lemma DrawGroupsSnoc(b: Buffer, format: LineFormat, gs: seq<Group>, g: int)
    requires 0 <= g < |gs|
    ensures DrawGroups(b, format, gs[..g + 1]) ==
      DrawLines(AppendText(DrawGroups(b, format, gs[..g]), Header(gs[g])), ItemLines(format, gs[g].1), gs[g].1)
  {
    assert gs[..g + 1][..g] == gs[..g];
  }

  /** A header and lines add their text, their findings and one region per line. */
  lemma DrawHeaded(b: Buffer, header: string, lines: seq<string>, items: seq<Finding>)
    requires |lines| == |items|
    ensures var r := DrawLines(AppendText(b, header), lines, items);
      r.text == b.text + (header + Concat(lines)) && r.items == b.items + items &&
      |r.regions| == |b.regions| + |items| && r.regions[..|b.regions|] == b.regions &&
      (Laid(b) && Ended(lines, items) ==> Laid(r))
  {
    DrawLinesText(AppendText(b, header), lines, items);
    assert b.text + (header + Concat(lines)) == (b.text + header) + Concat(lines);
    if Laid(b) && Ended(lines, items) {
      AppendTextLaid(b, header);
      DrawLinesLaid(AppendText(b, header), lines, items);
    }
  }

  /** A group adds its text, its findings and one region per finding, and keeps the layout. */
  lemma DrawGroupShape(b: Buffer, format: LineFormat, g: Group)
    ensures var r := DrawGroup(b, format, g);
      r.text == b.text + GroupText(format, g) && r.items == b.items + g.1 &&
      |r.regions| == |b.regions| + |g.1| && r.regions[..|b.regions|] == b.regions &&
      (Laid(b) && EndsWithNotes(format) ==> Laid(r))
  {
    if EndsWithNotes(format) {
      ItemLinesEnded(format, g.1);
    }
    DrawHeaded(b, Header(g), ItemLines(format, g.1), g.1);
  }

  /** The `j`-th item line of a group is numbered `j + 1` and has a region of its own. */
  lemma DrawGroupLine(b: Buffer, format: LineFormat, g: Group, j: int)
    requires 0 <= j < |g.1|
    ensures var r := DrawGroup(b, format, g);
      |b.regions| + j < |r.regions| &&
      0 <= r.regions[|b.regions| + j].0 <= r.regions[|b.regions| + j].1 <= |r.text| &&
      r.text[r.regions[|b.regions| + j].0..r.regions[|b.regions| + j].1] == format(j + 1, g.1[j])
  {
    var c := AppendText(b, Header(g));
    var ls := ItemLines(format, g.1);
    DrawLinesAt(c, ls, g.1, j);
    assert DrawGroup(b, format, g) == DrawLines(c, ls, g.1);
    assert |c.regions| == |b.regions|;
    assert ls[j] == format(j + 1, g.1[j]);
  }

  /** Drawing the groups appends their texts and their findings, in order, and keeps the layout. */
  lemma {:induction false} DrawGroupsShape(b: Buffer, format: LineFormat, gs: seq<Group>)
    ensures var r := DrawGroups(b, format, gs);
      r.text == b.text + GroupsText(format, gs) && r.items == b.items + Groups(gs) &&
      (Laid(b) && EndsWithNotes(format) ==> Laid(r))
  {
    if gs != [] {
      var init := gs[..|gs| - 1];
      var g := gs[|gs| - 1];
      DrawGroupsShape(b, format, init);
      DrawGroupShape(DrawGroups(b, format, init), format, g);
      Assoc(b.text, GroupsText(format, init), GroupText(format, g));
      Assoc(b.items, Groups(init), g.1);
    }
  }

  // ---------------------------------------------------------------------------
  // The review map and opening a result

  /** The key `f"{a},{b}"` of a region. */
  function RegionKey(r: (int, int)): string {
    Decimal(r.0) + "," + Decimal(r.1)
  }

  /** The index of the first `c` in `s`, or `|s|` when there is none. */
  function FirstIndex(s: string, c: char): (k: nat)
    ensures k <= |s|
  {
    if s == [] then 0 else if s[0] == c then 0 else 1 + FirstIndex(s[1..], c)
  }

  lemma {:induction false} FirstIndexOf(x: string, y: string, c: char)
    requires c !in x
    ensures FirstIndex(x + [c] + y, c) == |x|
  {
    if x != [] {
      assert (x + [c] + y)[1..] == x[1..] + [c] + y;
      FirstIndexOf(x[1..], y, c);
    }
  }

  /** Text without commas before a comma is told apart by the first comma. */
  lemma CommaSplit(x: string, y: string, u: string, v: string)
    requires ',' !in x && ',' !in u && x + "," + y == u + "," + v
    ensures x == u && y == v
  {
    var s := x + "," + y;
    FirstIndexOf(x, y, ',');
    FirstIndexOf(u, v, ',');
    assert |x| == |u|;
    assert x == s[..|x|] && u == s[..|u|];
    assert y == s[|x| + 1..] && v == s[|u| + 1..];
  }

  /** Regions at non-negative offsets have keys that tell them apart. */
  lemma RegionKeyInjective(r: (int, int), s: (int, int))
    requires 0 <= r.0 && 0 <= r.1 && 0 <= s.0 && 0 <= s.1
    requires RegionKey(r) == RegionKey(s)
    ensures r == s
  {
    DecimalNoPercent(r.0);
    DecimalNoPercent(s.0);
    CommaSplit(Decimal(r.0), Decimal(r.1), Decimal(s.0), Decimal(s.1));
    DigitsInjective(r.0, s.0);
    DigitsInjective(r.1, s.1);
  }

  /** `dict(zip(keys, items))`: later entries win. */
  function ReviewMap(regions: seq<(int, int)>, items: seq<Finding>): map<string, Finding>
    requires |regions| == |items|
  {
    if regions == [] then map[]
    else ReviewMap(regions[..|regions| - 1], items[..|items| - 1])[RegionKey(regions[|regions| - 1]) := items[|items| - 1]]
  }

  /** Regions one after the other have different keys. */
  lemma DistinctKeys(r: (int, int), s: (int, int))
    requires 0 <= r.0 < r.1 <= s.0 < s.1
    ensures RegionKey(r) != RegionKey(s)
  {
    if RegionKey(r) == RegionKey(s) {
      RegionKeyInjective(r, s);
    }
  }

  /** The buffer without its last region and finding. */
  function DropLast(b: Buffer): Buffer
    requires b.regions != [] && b.items != []
  {
    Buffer(b.text, b.regions[..|b.regions| - 1], b.items[..|b.items| - 1])
  }

  lemma DropLastLaid(b: Buffer)
    requires Laid(b) && b.regions != []
    ensures Laid(DropLast(b))
  {
    var c := DropLast(b);
    forall k | 0 <= k < |c.regions| ensures Covers(c.text, c.regions[k], c.items[k]) {
      assert c.regions[k] == b.regions[k] && c.items[k] == b.items[k];
    }
  }

  /** The map holds each region's key, mapped to that region's finding. */
  lemma {:induction false} ReviewMapFinds(b: Buffer, k: int)
    requires Laid(b) && 0 <= k < |b.regions|
    ensures RegionKey(b.regions[k]) in ReviewMap(b.regions, b.items)
    ensures ReviewMap(b.regions, b.items)[RegionKey(b.regions[k])] == b.items[k]
    decreases |b.regions|
  {
    var n := |b.regions| - 1;
    var c := DropLast(b);
    assert c.regions == b.regions[..n] && c.items == b.items[..n];
    var m := ReviewMap(c.regions, c.items);
    assert ReviewMap(b.regions, b.items) == m[RegionKey(b.regions[n]) := b.items[n]];
    if k < n {
      DropLastLaid(b);
      ReviewMapFinds(c, k);
      assert c.regions[k] == b.regions[k] && c.items[k] == b.items[k];
      DistinctKeys(b.regions[k], b.regions[n]);
    }
  }

  /** Every key of the map is the key of some region. */
  lemma {:induction false} ReviewMapKeys(b: Buffer, key: string)
    requires |b.regions| == |b.items|
    requires key in ReviewMap(b.regions, b.items)
    ensures exists k :: 0 <= k < |b.regions| && RegionKey(b.regions[k]) == key
    decreases |b.regions|
  {
    var n := |b.regions| - 1;
    if key != RegionKey(b.regions[n]) {
      var c := DropLast(b);
      ReviewMapKeys(c, key);
      var k :| 0 <= k < n && RegionKey(c.regions[k]) == key;
      assert b.regions[k] == c.regions[k];
    }
  }

  /** Disjoint non-empty regions give the map one entry per region, holding that region's finding. */
  lemma ReviewMapOnePerRegion(b: Buffer)
    requires Laid(b)
    ensures forall k :: 0 <= k < |b.regions| ==>
      RegionKey(b.regions[k]) in ReviewMap(b.regions, b.items) &&
      ReviewMap(b.regions, b.items)[RegionKey(b.regions[k])] == b.items[k]
    ensures forall key :: key in ReviewMap(b.regions, b.items) ==>
      exists k :: 0 <= k < |b.regions| && RegionKey(b.regions[k]) == key
  {
    forall k | 0 <= k < |b.regions|
      ensures RegionKey(b.regions[k]) in ReviewMap(b.regions, b.items) &&
        ReviewMap(b.regions, b.items)[RegionKey(b.regions[k])] == b.items[k]
    {
      ReviewMapFinds(b, k);
    }
    forall key | key in ReviewMap(b.regions, b.items)
      ensures exists k :: 0 <= k < |b.regions| && RegionKey(b.regions[k]) == key
    {
      ReviewMapKeys(b, key);
    }
  }

  /** `results[index]` with Python's negative indices; None is the IndexError. */
  function PyIndex<T>(s: seq<T>, index: int): (r: Option<T>)
    ensures r.Some? <==> -|s| <= index < |s|
    ensures r.Some? ==> r.value == s[if index < 0 then |s| + index else index]
  {
    if 0 <= index < |s| then Some(s[index])
    else if -|s| <= index < 0 then Some(s[|s| + index])
    else None
  }

  /** The location `open` builds from a result, as written. */
  function OpenPathAsWritten(f: Finding): string {
    Location(f.file, f.line)
  }

  /** The location `open` is meant to build: the full path, a colon, the line. */
  function OpenPath(f: Finding): string {
    PlainLocation(f.file, f.line)
  }

  /** Opening a path rescans it for `%l`; a path without `%l` is opened as intended. */
  lemma OpenPathRescans(f: Finding)
    ensures OpenPathAsWritten(f) == Replace(f.file, "%l", Decimal(f.line)) + ":" + Decimal(f.line)
    ensures !Contains(f.file, "%l") ==> OpenPathAsWritten(f) == OpenPath(f)
  {
    LocationRescans(f.file, f.line);
    if !Contains(f.file, "%l") {
      LocationPlain(f.file, f.line);
    }
  }

  /** A path holding `%l` once is opened with the line number spliced into its name. */
  lemma OpenPathSplices(f: Finding, a: string, b: string)
    requires f.file == a + "%l" + b && '%' !in a && '%' !in b
    ensures OpenPathAsWritten(f) == a + Decimal(f.line) + b + ":" + Decimal(f.line)
    ensures OpenPath(f) == f.file + ":" + Decimal(f.line)
  {
    OpenPathRescans(f);
    DecimalNoPercent(f.line);
    ReplaceOnce(a, "%l", b, Decimal(f.line));
  }

  /** The file "/p/50%lower.txt" at line 3 is opened as "/p/503ower.txt", line 3. */
  lemma OpenPathMangled(f: Finding)
    requires f.file == "/p/50%lower.txt" && f.line == 3
    ensures OpenPathAsWritten(f) == "/p/50" + "3" + "ower.txt" + ":" + "3"
    ensures OpenPath(f) == "/p/50%lower.txt" + ":" + "3"
  {
    assert f.file == "/p/50" + "%l" + "ower.txt";
    assert Decimal(3) == "3";
    OpenPathSplices(f, "/p/50", "ower.txt");
  }

  /**
   * The "open" branch: the location of the selected result, built by the template as
   * written (the last result when none is selected), or None when there are no results,
   * the index is out of range or the key is missing (the errors the code does not catch).
   */
  function OpenTarget(review: map<string, Finding>, regions: seq<(int, int)>, selected: Option<int>): Option<string> {
    if review == map[] then None
    else
      var index := if selected.Some? then selected.value else -1;
      match PyIndex(regions, index)
      case None => None
      case Some(r) => if RegionKey(r) in review then Some(OpenPathAsWritten(review[RegionKey(r)])) else None
  }

  /**
   * Over a laid-out report, selecting region `k` (counted from the end when negative)
   * opens its finding, an index out of range opens nothing, and with nothing selected
   * the last finding is opened.
   */
  lemma OpenSelected(b: Buffer, k: int)
    requires Laid(b)
    ensures var m := ReviewMap(b.regions, b.items);
      OpenTarget(m, b.regions, Some(k)) ==
        if -|b.regions| <= k < |b.regions| then Some(OpenPathAsWritten(b.items[if k < 0 then |b.regions| + k else k])) else None
    ensures var m := ReviewMap(b.regions, b.items);
      OpenTarget(m, b.regions, None) == if b.regions == [] then None else Some(OpenPathAsWritten(b.items[|b.items| - 1]))
  {
    var m := ReviewMap(b.regions, b.items);
    if -|b.regions| <= k < |b.regions| {
      var i := if k < 0 then |b.regions| + k else k;
      ReviewMapFinds(b, i);
      assert PyIndex(b.regions, k) == Some(b.regions[i]);
    }
    if b.regions != [] {
      var i := |b.regions| - 1;
      ReviewMapFinds(b, i);
      assert PyIndex(b.regions, -1) == Some(b.regions[i]);
    }
  }

  /**
   * The inner loop of `draw_results`: each item's line appended to the text, its region
   * and its finding recorded, numbering from 1.
   */
  method InsertItems(text: string, regions: seq<(int, int)>, found: seq<Finding>, format: LineFormat, items: seq<Finding>)
    returns (t: string, regs: seq<(int, int)>, its: seq<Finding>)
    ensures Buffer(t, regs, its) == DrawLines(Buffer(text, regions, found), ItemLines(format, items), items)
  {
    ghost var ls := ItemLines(format, items);
    ghost var start := Buffer(text, regions, found);
    t, regs, its := text, regions, found;
    for j := 0 to |items|
      invariant Buffer(t, regs, its) == DrawLines(start, ls[..j], items[..j])
    {
      DrawLinesSnoc(start, ls, items, j);
      var line := format(j + 1, items[j]);
      var at := |t|;
      t := t + line;
      regs := regs + [(at, |t|)];
      its := its + [items[j]];
    }
    assert ls[..|items|] == ls && items[..|items|] == items;
  }

  // ---------------------------------------------------------------------------
  // The results view

  /**
   * The results view: its text, the "results" regions, the "review_results" map from
   * region keys to findings and the stored "selected_result".
   */
  class ReportView {
    var text: string
    var regions: seq<(int, int)>
    var review: map<string, Finding>
    var selected: Option<int>
    /** The finding of each region, in the order `draw_results` recorded them. */
    ghost var items: seq<Finding>

    /**
     * The view holds one region per recorded finding, laid out over its text, and the
     * review map is the one those regions and findings give.
     */
    ghost predicate Valid()
      reads this
    {
      Laid(Buffer(text, regions, items)) && review == ReviewMap(regions, items)
    }

    /** A new, empty results view. */
    constructor ()
      ensures text == "" && regions == [] && review == map[] && selected == None
      ensures items == [] && Valid()
    {
      text := "";
      regions := [];
      review := map[];
      selected := None;
      items := [];
    }

    /**
     * `draw_results`: appends each group's header and item lines to the text, then
     * replaces the regions and the review map with the ones recorded on the way. With a
     * format whose lines end with their notes the view is laid out afterwards.
     */
    method DrawResults(gs: seq<Group>, format: LineFormat)
      modifies this
      ensures var b := DrawGroups(Buffer(old(text), [], []), format, gs);
        text == b.text && regions == b.regions && review == ReviewMap(b.regions, b.items) && items == b.items
      ensures items == Groups(gs)
      ensures EndsWithNotes(format) ==> Valid()
      ensures selected == old(selected)
    {
      ghost var b0 := Buffer(text, [], []);
      var t := text;
      var regs: seq<(int, int)> := [];
      var its: seq<Finding> := [];
      for g := 0 to |gs|
        modifies {}
        invariant Buffer(t, regs, its) == DrawGroups(b0, format, gs[..g])
      {
        DrawGroupsSnoc(b0, format, gs, g);
        t := t + Header(gs[g]);
        t, regs, its := InsertItems(t, regs, its, format, gs[g].1);
      }
      assert gs[..|gs|] == gs;
      DrawnFromEmpty(b0.text, format, gs);
      text := t;
      regions := regs;
      review := ReviewMap(regs, its);
      items := its;
    }

    /**
     * `TodoReviewRenderCommand.run`: erases the view, sorts and groups the findings,
     * then draws the header and the results. The view is then laid out with the sorted
     * findings, and the stored selection is left as it was.
     */
    method Render(results: seq<Finding>, order: Order, st: Style, forms: string, datestr: string,
                  strftime: string -> string, time: string, count: int)
      modifies this
      ensures var largest := (if MaxLabel(st, results) < st.maxSpaces then MaxLabel(st, results) else st.maxSpaces) + 6;
        var b := DrawGroups(Buffer(HeaderLine(forms, datestr, strftime, time, count), [], []),
                            ItemFormat(st, largest), GroupBy(order.Sort(results)));
        text == b.text && regions == b.regions && review == ReviewMap(b.regions, b.items)
      ensures Valid() && items == order.Sort(results)
      ensures selected == old(selected)
    {
      var largest := Width(results, st);
      var groups := GroupBy(order.Sort(results));
      var format := ItemFormat(st, largest);
      text := HeaderLine(forms, datestr, strftime, time, count);
      DrawResults(groups, format);
      ItemFormatEnds(st, largest);
      GroupByFlattens(order.Sort(results));
    }

    /**
     * The "direction" branch: with results present, stores the selection `Move` gives;
     * otherwise does nothing.
     */
    method Navigate(d: Direction, forwardSkip: int, backwardSkip: int)
      modifies this
      ensures text == old(text) && regions == old(regions) && review == old(review) && items == old(items)
      ensures var r := Move(old(selected), d, |regions|, forwardSkip, backwardSkip);
        selected == if review != map[] && r.Some? then r else old(selected)
      ensures Valid() <==> old(Valid())
    {
      if review == map[] {
        return;
      }
      var r := Move(selected, d, |regions|, forwardSkip, backwardSkip);
      if r.Some? {
        selected := r;
      }
    }

    /**
     * The "open" branch: the location to open, if any; nothing changes. On a laid-out
     * view, a selected region `k` (counted from the end when negative) opens its own
     * finding, an index out of range opens nothing, and with nothing selected the last
     * finding is opened.
     */
    method Open() returns (p: Option<string>)
      ensures p == OpenTarget(review, regions, selected)
      ensures Valid() && selected.Some? ==>
        p == if -|regions| <= selected.value < |regions|
             then Some(OpenPathAsWritten(items[if selected.value < 0 then |regions| + selected.value else selected.value]))
             else None
      ensures Valid() && selected.None? ==>
        p == if regions == [] then None else Some(OpenPathAsWritten(items[|items| - 1]))
    {
      p := OpenTarget(review, regions, selected);
      if Valid() {
        OpenSelected(Buffer(text, regions, items), if selected.Some? then selected.value else 0);
      }
    }
  }

  /** Drawn from no regions, the findings are the groups' and the layout holds for a format that ends lines with their notes. */
  lemma DrawnFromEmpty(text: string, format: LineFormat, gs: seq<Group>)
    ensures var b := DrawGroups(Buffer(text, [], []), format, gs);
      b.items == Groups(gs) && (EndsWithNotes(format) ==> Laid(b))
  {
    DrawGroupsShape(Buffer(text, [], []), format, gs);
    assert [] + Groups(gs) == Groups(gs);
  }

  /**
   * A report drawn from findings holds the header and each group's text and lays the
   * findings out in sorted order, one region each.
   */
  lemma ReportLaid(header: string, st: Style, largest: int, order: Order, results: seq<Finding>)
    ensures var format := ItemFormat(st, largest);
      var b := DrawGroups(Buffer(header, [], []), format, GroupBy(order.Sort(results)));
      Laid(b) && b.items == order.Sort(results) &&
      b.text == header + GroupsText(format, GroupBy(order.Sort(results)))
  {
    var format := ItemFormat(st, largest);
    var sorted := order.Sort(results);
    GroupByFlattens(sorted);
    ItemFormatEnds(st, largest);
    DrawGroupsShape(Buffer(header, [], []), format, GroupBy(sorted));
    assert [] + Groups(GroupBy(sorted)) == sorted;
  }

  /**
   * Opening the `k`-th region of a report opens the `k`-th finding in sorted order, at
   * the location as written; that is the intended one when its path holds no `%l`.
   */
  lemma ReportOpens(header: string, st: Style, largest: int, order: Order, results: seq<Finding>, k: int)
    requires 0 <= k < |results|
    ensures var b := DrawGroups(Buffer(header, [], []), ItemFormat(st, largest), GroupBy(order.Sort(results)));
      OpenTarget(ReviewMap(b.regions, b.items), b.regions, Some(k)) == Some(OpenPathAsWritten(order.Sort(results)[k]))
    ensures !Contains(order.Sort(results)[k].file, "%l") ==> OpenPathAsWritten(order.Sort(results)[k]) == OpenPath(order.Sort(results)[k])
  {
    var b := DrawGroups(Buffer(header, [], []), ItemFormat(st, largest), GroupBy(order.Sort(results)));
    ReportLaid(header, st, largest, order, results);
    OpenSelected(b, k);
    OpenPathRescans(order.Sort(results)[k]);
  }

  /** In the report, the `j`-th line of a group is that finding's `ItemText`, numbered `j + 1`. */
  lemma GroupLineText(b: Buffer, st: Style, largest: int, g: Group, j: int)
    requires 0 <= j < |g.1|
    ensures var r := DrawGroup(b, ItemFormat(st, largest), g);
      |b.regions| + j < |r.regions| &&
      0 <= r.regions[|b.regions| + j].0 <= r.regions[|b.regions| + j].1 <= |r.text| &&
      r.text[r.regions[|b.regions| + j].0..r.regions[|b.regions| + j].1] == ItemText(st, j + 1, g.1[j], largest)
  {
    DrawGroupLine(b, ItemFormat(st, largest), g, j);
  }
}
