/**
 * The text of the report: the group headers and item lines `draw_results` writes
 * (plugin/TodoReview.py:329-341) and the header line of `draw_header`
 * (plugin/TodoReview.py:312-327).
 */
module Lines {
  import opened Common
  import opened Text
  import opened Configuration
  import opened Extraction
  import opened Organize
  import opened Labels

  // ---------------------------------------------------------------------------
  // Lines of the report

  /** `max(n, 1)`. */
  function AtLeastOne(n: int): int {
    if n < 1 then 1 else n
  }

  /** The numbered part of an item line: `"%i. %f"` filled in (legacy) or the f-string. */
  function Numbered(st: Style, idx: int, f: Finding): string {
    if st.variant.ChainedLineFormat() then Replace(Replace("%i. %f", "%i", Decimal(idx)), "%f", LabelAsWritten(st, f))
    else Decimal(idx) + ". " + LabelAsWritten(st, f)
  }

  /** The padding after the numbered part: enough to reach `largest`, at least one space. */
  function Padding(line: string, largest: int): string {
    Spaces(AtLeastOne(largest - |line|))
  }

  /** The text of one item: the numbered part, the padding, the note, a newline. */
  function ItemText(st: Style, idx: int, f: Finding, largest: int): string {
    var line := Numbered(st, idx, f);
    var pad := Padding(line, largest);
    if st.variant.ChainedLineFormat() then
      Replace(Replace(Replace("%f%s%n\n", "%f", line), "%s", pad), "%n", f.note)
    else line + pad + f.note + "\n"
  }

  /** The group header, filled in by two chained replacements. */
  function Header(g: Group): string {
    Replace(Replace("\n## %t (%n)\n", "%t", Upper(g.0)), "%n", Decimal(|g.1|))
  }

  // The templates split around their placeholders; each split on its own, so that the
  // literals are compared away from any `Replace` term.
  lemma TagPieces() ensures "\n## %t (%n)\n" == "\n## " + "%t" + " (%n)\n" {}
  lemma CountPieces() ensures " (%n)\n" == " (" + "%n" + ")\n" {}
  lemma IndexPieces() ensures "%i. %f" == "%i" + ". %f" {}
  lemma LabelPieces() ensures ". %f" == ". " + "%f" + "" {}
  lemma LinePieces() ensures "%f%s%n\n" == "%f" + "%s%n\n" {}
  lemma PaddingPieces() ensures "%s%n\n" == "%s" + "%n\n" {}
  lemma NotePieces() ensures "%n\n" == "%n" + "\n" {}

  lemma FillTag(u: string)
    ensures Replace("\n## %t (%n)\n", "%t", u) == "\n## " + u + " (%n)\n"
  {
    TagPieces();
    ReplaceIn("\n## %t (%n)\n", "\n## ", "%t", " (%n)\n", u);
  }

  lemma FillCount(u: string, n: string)
    requires 'n' !in u
    ensures Replace("\n## " + u + " (%n)\n", "%n", n) == "\n## " + u + " (" + n + ")\n"
  {
    assert 'n' !in "\n## " + u;
    AbsentWithoutChar("\n## " + u, "%n");
    assert "\n## " + u + " (%n)\n" == ("\n## " + u) + " (%n)\n";
    ReplaceAfter("\n## " + u, " (%n)\n", "%n", n);
    CountPieces();
    ReplaceIn(" (%n)\n", " (", "%n", ")\n", n);
  }

  /**
   * A header always shows the upper-cased tag and the size of the group: the tag cannot
   * bring a `%n` of its own, since upper-casing leaves no `n`.
   */
  lemma HeaderShows(g: Group)
    ensures Header(g) == "\n## " + Upper(g.0) + " (" + Decimal(|g.1|) + ")\n"
  {
    var u := Upper(g.0);
    assert 'n' !in u by {
      forall i | 0 <= i < |u| ensures u[i] != 'n' {
        assert !('a' <= u[i] <= 'z');
      }
    }
    FillTag(u);
    FillCount(u, Decimal(|g.1|));
  }

  lemma FillIndex(d: string)
    ensures Replace("%i. %f", "%i", d) == d + ". %f"
  {
    IndexPieces();
    ReplaceAtFront("%i. %f", "%i", ". %f", d);
  }

  lemma FillLabel(d: string, l: string)
    requires '%' !in d
    ensures Replace(d + ". %f", "%f", l) == d + ". " + l
  {
    AbsentWithoutChar(d, "%f");
    ReplaceAfter(d, ". %f", "%f", l);
    LabelPieces();
    ReplaceIn(". %f", ". ", "%f", "", l);
  }

  /** The legacy `"%i. %f"` template gives the same numbered part as the f-string. */
  lemma NumberedAgree(st: Style, idx: int, f: Finding)
    ensures Numbered(st, idx, f) == Decimal(idx) + ". " + LabelAsWritten(st, f)
  {
    if st.variant.ChainedLineFormat() {
      DecimalNoPercent(idx);
      FillIndex(Decimal(idx));
      FillLabel(Decimal(idx), LabelAsWritten(st, f));
    }
  }

  lemma FillNumbered(line: string)
    ensures Replace("%f%s%n\n", "%f", line) == line + "%s%n\n"
  {
    LinePieces();
    ReplaceAtFront("%f%s%n\n", "%f", "%s%n\n", line);
  }

  lemma FillPadding(line: string, pad: string)
    requires '%' !in pad
    ensures Replace(line + "%s%n\n", "%s", pad) == Replace(line, "%s", pad) + pad + "%n\n"
  {
    SeamFree(line, "%s%n\n", "%s");
    ReplaceConcat(line, "%s%n\n", "%s", pad);
    PaddingPieces();
    ReplaceAtFront("%s%n\n", "%s", "%n\n", pad);
  }

  lemma FillNote(x: string, pad: string, note: string)
    requires '%' !in pad && pad != [] && pad[0] == ' ' && pad[|pad| - 1] == ' '
    ensures Replace(x + pad + "%n\n", "%n", note) == Replace(x, "%n", note) + pad + note + "\n"
  {
    SeamFree(x + pad, "%n\n", "%n");
    ReplaceConcat(x + pad, "%n\n", "%n", note);
    SeamFree(x, pad, "%n");
    ReplaceConcat(x, pad, "%n", note);
    AbsentWithoutChar(pad, "%n");
    ReplaceAbsent(pad, "%n", note);
    NotePieces();
    ReplaceFront("%n", "\n", note);
  }

  /** A padding is spaces only, at least one of them. */
  lemma PaddingSpaces(line: string, largest: int)
    ensures var pad := Padding(line, largest);
      '%' !in pad && pad != [] && pad[0] == ' ' && pad[|pad| - 1] == ' '
  {
  }

  /**
   * The legacy line fills `%f`, then `%s`, then `%n` in one string, so the numbered part
   * is rescanned for `%s` and `%n`; the padding and the note are not.
   */
  lemma LegacyItemText(st: Style, idx: int, f: Finding, largest: int)
    requires st.variant.ChainedLineFormat()
    ensures var line := Numbered(st, idx, f);
      var pad := Padding(line, largest);
      ItemText(st, idx, f, largest) ==
        Replace(Replace(line, "%s", pad), "%n", f.note) + pad + f.note + "\n"
  {
    var line := Numbered(st, idx, f);
    var pad := Padding(line, largest);
    PaddingSpaces(line, largest);
    FillNumbered(line);
    FillPadding(line, pad);
    FillNote(Replace(line, "%s", pad), pad, f.note);
  }

  /** Both variants draw the same line unless the label holds `%s` or `%n`. */
  lemma ItemTextAgree(st: Style, idx: int, f: Finding, largest: int)
    requires !Contains(LabelAsWritten(st, f), "%s") && !Contains(LabelAsWritten(st, f), "%n")
    ensures ItemText(st, idx, f, largest) == ItemText(st.(variant := Current), idx, f, largest)
  {
    if st.variant.ChainedLineFormat() {
      var line := Numbered(st, idx, f);
      NumberedAgree(st, idx, f);
      NumberedAgree(st.(variant := Current), idx, f);
      LegacyItemText(st, idx, f, largest);
      var d := Decimal(idx) + ". ";
      DecimalNoPercent(idx);
      AbsentWithoutChar(d, "%s");
      AbsentWithoutChar(d, "%n");
      ReplaceAfter(d, LabelAsWritten(st, f), "%s", Padding(line, largest));
      ReplaceAbsent(LabelAsWritten(st, f), "%s", Padding(line, largest));
      ReplaceAfter(d, LabelAsWritten(st, f), "%n", f.note);
      ReplaceAbsent(LabelAsWritten(st, f), "%n", f.note);
    }
  }

  /** The two replacements of the legacy line when its one `%` starts a `%s`. */
  lemma FillStray(a: string, b: string, pad: string, note: string)
    requires '%' !in a && '%' !in b && '%' !in pad
    ensures Replace(Replace(a + "%s" + b, "%s", pad), "%n", note) == a + pad + b
  {
    AbsentWithoutChar(a, "%s");
    AbsentWithoutChar(b, "%s");
    ReplaceSole(a, "%s", b, pad);
    assert '%' !in a + pad + b;
    AbsentWithoutChar(a + pad + b, "%n");
    ReplaceAbsent(a + pad + b, "%n", note);
  }

  /**
   * A `%s` in a legacy label is replaced by the padding: the file "%s.py" at line 1,
   * drawn first with no column to reach, loses its `%s`.
   */
  lemma LegacyItemTextDiffers(st: Style, f: Finding)
    requires !st.includeFolder && st.variant == Legacy
    requires f.file == "%s.py" && f.line == 1 && f.note == "x"
    ensures ItemText(st, 1, f, 0) == "1. " + " " + ".py:1" + " " + "x" + "\n"
    ensures ItemText(st.(variant := Current), 1, f, 0) == "1. " + "%s" + ".py:1" + " " + "x" + "\n"
  {
    var a, b := "1. ", ".py:1";
    StrayNumbered(st, f, a, b);
    StrayNumbered(st.(variant := Current), f, a, b);
    assert Padding(a + "%s" + b, 0) == " ";
    LegacyItemText(st, 1, f, 0);
    FillStray(a, b, " ", "x");
  }

  /** The numbered part of the file "%s.py" at line 1, in either variant. */
  lemma StrayNumbered(st: Style, f: Finding, a: string, b: string)
    requires !st.includeFolder && f.file == "%s.py" && f.line == 1
    requires a == "1. " && b == ".py:1"
    ensures Numbered(st, 1, f) == a + "%s" + b
  {
    LabelOfName(st, f);
    AbsentWithoutChar(f.file, "%l");
    ReplaceAbsent(f.file, "%l", Decimal(1));
    NumberedAgree(st, 1, f);
    assert Decimal(1) + ". " == a;
    assert f.file + ":" + Decimal(1) == "%s" + b;
  }

  /** A line made of a head, a padding ending in a space, the note and a newline. */
  lemma LineEnds(head: string, pad: string, note: string)
    requires pad != [] && pad[|pad| - 1] == ' '
    ensures var t := head + pad + note + "\n";
      |t| > |note| + 1 && t[|t| - |note| - 2..] == " " + note + "\n"
  {
    var t := head + pad + note + "\n";
    assert t[|t| - |note| - 2..] == [pad[|pad| - 1]] + note + "\n";
  }

  /** Every item line ends with at least one space, the note and a newline. */
  lemma ItemTextEnds(st: Style, idx: int, f: Finding, largest: int)
    ensures var t := ItemText(st, idx, f, largest);
      |t| > |f.note| + 1 && t[|t| - |f.note| - 2..] == " " + f.note + "\n"
  {
    var line := Numbered(st, idx, f);
    var pad := Padding(line, largest);
    PaddingSpaces(line, largest);
    if st.variant.ChainedLineFormat() {
      LegacyItemText(st, idx, f, largest);
      LineEnds(Replace(Replace(line, "%s", pad), "%n", f.note), pad, f.note);
    } else {
      LineEnds(line, pad, f.note);
    }
  }

  /** In the current format the note starts at column `largest` unless the line is too long. */
  lemma NoteColumn(st: Style, idx: int, f: Finding, largest: int)
    requires !st.variant.ChainedLineFormat()
    ensures var line := Numbered(st, idx, f);
      var t := ItemText(st, idx, f, largest);
      t == line + Padding(line, largest) + f.note + "\n" &&
      |line + Padding(line, largest)| == if |line| < largest then largest else |line| + 1
  {
  }

  // ---------------------------------------------------------------------------
  // draw_header

  /** The header format in use: an empty setting falls back to the default, so it is never empty. */
  function HeaderFormat(forms: string): (r: string)
    ensures r != ""
    ensures forms != "" ==> r == forms
  {
    if forms == "" then DefaultHeaderFormat else forms
  }

  /** `draw_header`: `%d`, then `%t`, then `%c` filled in, behind `// `. */
  function HeaderLine(forms: string, datestr: string, strftime: string -> string, time: string, count: int): string {
    var forms := HeaderFormat(forms);
    var datestr := if datestr == "" then DefaultHeaderDate else datestr;
    "// " + Replace(Replace(Replace(forms, "%d", strftime(datestr)), "%t", time), "%c", Decimal(count)) + "\n"
  }

  /**
   * The header fields filled into a format `"%d" + p1 + "%c" + p2 + "%t" + p3`, in the
   * order of the code: `%d` first.
   */
  lemma FillDate(d: string, p1: string, p2: string, p3: string)
    requires 'd' !in p1 && 'd' !in p2 && 'd' !in p3
    ensures Replace("%d" + p1 + "%c" + p2 + "%t" + p3, "%d", d) == d + p1 + "%c" + p2 + "%t" + p3
  {
    var rest := p1 + "%c" + p2 + "%t" + p3;
    assert 'd' !in rest;
    AbsentWithoutChar(rest, "%d");
    ReplaceFront("%d", rest, d);
    ReplaceAbsent(rest, "%d", d);
    Lead("%d", p1, "%c", p2, "%t", p3);
    Lead(d, p1, "%c", p2, "%t", p3);
  }

  lemma Lead(x: string, p1: string, c: string, p2: string, t: string, p3: string)
    ensures x + p1 + c + p2 + t + p3 == x + (p1 + c + p2 + t + p3)
  {
  }

  /** Then `%t`: the date is rescanned, so it must bring no `%`. */
  lemma FillTime(d: string, t: string, p1: string, p2: string, p3: string)
    requires '%' !in d && '%' !in p1 && '%' !in p2 && '%' !in p3 && 't' !in p2
    ensures Replace(d + p1 + "%c" + p2 + "%t" + p3, "%t", t) == d + p1 + "%c" + p2 + t + p3
  {
    var a := d + p1 + "%c" + p2;
    assert a == (d + p1) + ("%c" + p2);
    AbsentAcross(d + p1, "%c" + p2, "%t");
    AbsentWithoutChar(p3, "%t");
    assert a[|a| - 1] != '%' by {
      if p2 != [] {
        assert a[|a| - 1] == p2[|p2| - 1];
      } else {
        assert a[|a| - 1] == 'c';
      }
    }
    ReplaceSole(a, "%t", p3, t);
  }

  /** Last `%c`; the date and the time are rescanned once more. */
  lemma FillFileCount(d: string, t: string, c: string, p1: string, p2: string, p3: string)
    requires '%' !in d && '%' !in t && '%' !in p1 && '%' !in p2 && '%' !in p3
    ensures Replace(d + p1 + "%c" + p2 + t + p3, "%c", c) == d + p1 + c + p2 + t + p3
  {
    var a, b := d + p1, p2 + t + p3;
    AbsentWithoutChar(a, "%c");
    AbsentWithoutChar(b, "%c");
    ReplaceSole(a, "%c", b, c);
    Regroup(a + "%c", p2, t, p3);
    Regroup(a + c, p2, t, p3);
  }

  lemma Regroup(x: string, p: string, q: string, r: string)
    ensures x + p + q + r == x + (p + q + r)
  {
    assert x + p + q == x + (p + q);
    assert x + (p + q) + r == x + ((p + q) + r);
  }

  /**
   * A format with one `%d`, one `%c` and one `%t`, in that order, gets the date, the
   * count and the time in their places, provided the date and the time bring no `%`.
   */
  lemma FillHeader(d: string, t: string, c: string, p1: string, p2: string, p3: string)
    requires '%' !in d && '%' !in t && '%' !in p1 && '%' !in p2 && '%' !in p3
    requires 'd' !in p1 && 'd' !in p2 && 'd' !in p3 && 't' !in p2
    ensures Replace(Replace(Replace("%d" + p1 + "%c" + p2 + "%t" + p3, "%d", d), "%t", t), "%c", c) ==
      d + p1 + c + p2 + t + p3
  {
    FillDate(d, p1, p2, p3);
    FillTime(d, t, p1, p2, p3);
    FillFileCount(d, t, c, p1, p2, p3);
  }

  /**
   * With the default format the header reads "// <date> - <count> files in <time> secs",
   * provided the date and time texts bring no `%` of their own; an empty format setting
   * gives the same line as the default.
   */
  lemma HeaderDefault(datestr: string, strftime: string -> string, time: string, count: int)
    requires var d := if datestr == "" then DefaultHeaderDate else datestr; '%' !in strftime(d)
    requires '%' !in time
    ensures var d := if datestr == "" then DefaultHeaderDate else datestr;
      HeaderLine("", datestr, strftime, time, count) == HeaderLine(DefaultHeaderFormat, datestr, strftime, time, count) &&
      HeaderLine("", datestr, strftime, time, count) ==
        "// " + (strftime(d) + " - " + Decimal(count) + " files in " + time + " secs") + "\n"
  {
    var d := strftime(if datestr == "" then DefaultHeaderDate else datestr);
    var p1, p2, p3 := " - ", " files in ", " secs";
    assert DefaultHeaderFormat == "%d" + p1 + "%c" + p2 + "%t" + p3;
    DecimalNoPercent(count);
    FillHeader(d, time, Decimal(count), p1, p2, p3);
  }
}
