/**
 * What `Engine.extract` (plugin/TodoReview.py:128-164) yields for the lines of one file:
 * one finding per named group that took part in a match, numbered by 1-based line.
 */
module Extraction {
  import opened Common
  import opened Patterns
  import opened System

  /** One result dictionary: `file`, `patt`, `note`, `line`, `priority`. */
  datatype Finding = Finding(file: Path, patt: string, note: string, line: int, priority: int)

  /** The finding one `(name, value)` item of a groupdict gives: none when the group did not take part. */
  function GroupFinding(p: Path, num: int, item: (string, Option<string>)): seq<Finding> {
    match item.1
    case None => []
    case Some(note) => [Finding(p, item.0, note, num, PriorityOf(note))]
  }

  /** The findings of one match: every group whose value is not None, empty notes included. */
  function MatchFindings(p: Path, num: int, groups: GroupDict): seq<Finding> {
    if groups == [] then []
    else MatchFindings(p, num, groups[..|groups| - 1]) + GroupFinding(p, num, groups[|groups| - 1])
  }

  /** The findings of all matches on one line, in match order. */
  function LineFindings(p: Path, num: int, matches: seq<GroupDict>): seq<Finding> {
    if matches == [] then []
    else LineFindings(p, num, matches[..|matches| - 1]) + MatchFindings(p, num, matches[|matches| - 1])
  }

  /** The findings of a sequence of lines, line `k` (from 1) searched with `scan`. */
  function LinesFindings(p: Path, lines: seq<string>, scan: string -> seq<GroupDict>): seq<Finding> {
    if lines == [] then []
    else LinesFindings(p, lines[..|lines| - 1], scan) + LineFindings(p, |lines|, scan(lines[|lines| - 1]))
  }

  /**
   * A match yields exactly the groups that took part, in groupdict order, each with the
   * file, the line number and the priority of its note.
   */
  lemma {:induction false} MatchFindingsIff(p: Path, num: int, groups: GroupDict, f: Finding)
    ensures f in MatchFindings(p, num, groups) <==>
      f.file == p && f.line == num && f.priority == PriorityOf(f.note) &&
      (f.patt, Some(f.note)) in groups
  {
    if groups != [] {
      var init := groups[..|groups| - 1];
      var last := groups[|groups| - 1];
      MatchFindingsIff(p, num, init, f);
      assert groups == init + [last];
      assert f in GroupFinding(p, num, last) <==>
        f.file == p && f.line == num && f.priority == PriorityOf(f.note) && last == (f.patt, Some(f.note));
    }
  }

  /** The number of groups that took part in a match. */
  function Participating(groups: GroupDict): nat {
    if groups == [] then 0
    else Participating(groups[..|groups| - 1]) + (if groups[|groups| - 1].1.Some? then 1 else 0)
  }

  /** One finding per participating group, no more. */
  lemma {:induction false} MatchFindingsCount(p: Path, num: int, groups: GroupDict)
    ensures |MatchFindings(p, num, groups)| == Participating(groups)
  {
    if groups != [] {
      MatchFindingsCount(p, num, groups[..|groups| - 1]);
    }
  }

  /** A group that matched the empty string still yields a finding, with priority 50. */
  lemma EmptyNoteKept(p: Path, num: int, tag: string)
    ensures MatchFindings(p, num, [(tag, Some(""))]) == [Finding(p, tag, "", num, 50)]
  {
    assert [(tag, Some(""))][..0] == [];
  }

  /** Every finding of a line comes from one of its matches, with that line's number. */
  lemma {:induction false} LineFindingsIff(p: Path, num: int, matches: seq<GroupDict>, f: Finding)
    ensures f in LineFindings(p, num, matches) <==>
      exists m :: m in matches && f in MatchFindings(p, num, m)
  {
    if matches != [] {
      var init := matches[..|matches| - 1];
      var last := matches[|matches| - 1];
      LineFindingsIff(p, num, init, f);
      assert matches == init + [last];
      assert LineFindings(p, num, matches) == LineFindings(p, num, init) + MatchFindings(p, num, last);
      if f in LineFindings(p, num, init) {
        var m :| m in init && f in MatchFindings(p, num, m);
        assert m in matches;
      }
      if f in MatchFindings(p, num, last) {
        assert last in matches;
      }
    }
  }

  /**
   * Line numbers are 1-based: a finding with number `k` comes from `lines[k - 1]`, and
   * every finding of every line is there.
   */
  lemma {:induction false} LinesFindingsIff(p: Path, lines: seq<string>, scan: string -> seq<GroupDict>, f: Finding)
    ensures f in LinesFindings(p, lines, scan) <==>
      1 <= f.line <= |lines| && f in LineFindings(p, f.line, scan(lines[f.line - 1]))
  {
    if lines != [] {
      var init := lines[..|lines| - 1];
      LinesFindingsIff(p, init, scan, f);
      if 1 <= f.line <= |init| {
        assert lines[f.line - 1] == init[f.line - 1];
      }
      if f in LineFindings(p, |lines|, scan(lines[|lines| - 1])) {
        LineFindingsIff(p, |lines|, scan(lines[|lines| - 1]), f);
        var m :| m in scan(lines[|lines| - 1]) && f in MatchFindings(p, |lines|, m);
        MatchFindingsIff(p, |lines|, m, f);
      }
      if 1 <= f.line <= |lines| && f in LineFindings(p, f.line, scan(lines[f.line - 1])) {
        LineFindingsIff(p, f.line, scan(lines[f.line - 1]), f);
        var m :| m in scan(lines[f.line - 1]) && f in MatchFindings(p, f.line, m);
        MatchFindingsIff(p, f.line, m, f);
      }
    }
  }

  /** The findings of a prefix of the lines come first. */
  lemma {:induction false} LinesFindingsPrefix(p: Path, lines: seq<string>, k: nat, scan: string -> seq<GroupDict>)
    requires k <= |lines|
    ensures LinesFindings(p, lines[..k], scan) <= LinesFindings(p, lines, scan)
    decreases |lines|
  {
    if k < |lines| {
      var init := lines[..|lines| - 1];
      assert init[..k] == lines[..k];
      LinesFindingsPrefix(p, init, k, scan);
    } else {
      assert lines[..k] == lines;
    }
  }

  /**
   * Two matches on one line give findings with the same line number: the findings of
   * each match follow one another.
   */
  lemma TwoMatchesOneLine(p: Path, num: int, m1: GroupDict, m2: GroupDict)
    ensures LineFindings(p, num, [m1, m2]) == MatchFindings(p, num, m1) + MatchFindings(p, num, m2)
  {
    assert [m1, m2][..1] == [m1];
    assert [m1][..0] == [];
    assert LineFindings(p, num, [m1]) == MatchFindings(p, num, m1);
  }
}
