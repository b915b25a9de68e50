/**
 * The pattern compiler: turning exclude globs into regular-expression text, merging
 * fragments into one alternation, and the fixed priority marker `\(([0-9]{1,2})\)`
 * (plugin/TodoReview.py:28-55 and 102).
 */
module Patterns {
  import opened Common
  import opened Text

  /** A compiled regular expression: its source text and whether it ignores case. */
  datatype Regex = Regex(pattern: string, ignoreCase: bool)

  /** The character class `[\\/]` that stands for either directory separator. */
  const SepClass: string := "[\\\\/]"

  /** The end-of-string anchor `\Z` that `fnmatch.translate` appends. */
  const EndAnchor: string := "\\Z"

  /**
   * `fn_to_regex`, applied to the text `fnmatch.translate` produced for a glob: every `/`
   * becomes `[\\/]`, then every `\Z` is deleted.
   */
  function FnToRegex(translated: string): string {
    Replace(Replace(translated, "/", SepClass), EndAnchor, "")
  }

  /** Reference reading of the first step: each `/` mapped to the class, every other character kept. */
  function SlashesToClass(s: string): string {
    if s == [] then "" else (if s[0] == '/' then SepClass else [s[0]]) + SlashesToClass(s[1..])
  }

  /** Replacing the one-character pattern `/` is exactly the character-wise mapping. */
  lemma {:induction false} ReplaceSlashIsMap(s: string)
    ensures Replace(s, "/", SepClass) == SlashesToClass(s)
  {
    if s != [] {
      assert s == [s[0]] + s[1..];
      assert NoStraddle([s[0]], s[1..], "/");
      ReplaceConcat([s[0]], s[1..], "/", SepClass);
      if s[0] == '/' {
        ReplaceWhole("/", SepClass);
      } else {
        assert Replace([s[0]], "/", SepClass) == [s[0]];
      }
      ReplaceSlashIsMap(s[1..]);
    }
  }

  /** A translation holding neither `/` nor `\Z` comes back unchanged. */
  lemma FnToRegexUnchanged(translated: string)
    requires '/' !in translated
    requires !Contains(translated, EndAnchor)
    ensures FnToRegex(translated) == translated
  {
    forall i | 0 <= i <= |translated| ensures !StartsAt(translated, "/", i) {
      if i + 1 <= |translated| {
        assert translated[i..i + 1][0] == translated[i];
        assert translated[i] in translated;
      }
    }
    ReplaceAbsent(translated, "/", SepClass);
    ReplaceAbsent(translated, EndAnchor, "");
  }

  /**
   * The anchor `fnmatch.translate` puts at the end is always removed, and it never joins
   * with the text before it: the result is what the text without it would give.
   */
  lemma FnToRegexDropsAnchor(body: string)
    ensures FnToRegex(body + EndAnchor) == FnToRegex(body)
  {
    assert NoStraddle(body, EndAnchor, "/");
    ReplaceConcat(body, EndAnchor, "/", SepClass);
    ReplaceAbsent(EndAnchor, "/", SepClass);
    var x := Replace(body, "/", SepClass);
    forall i | |x| - 2 < i < |x| ensures !StartsAt(x + EndAnchor, EndAnchor, i) {
      if 0 <= i {
        var y := x + EndAnchor;
        assert y[i + 1] == EndAnchor[0];
        assert y[i..i + 2][1] != EndAnchor[1];
      }
    }
    ReplaceConcat(x, EndAnchor, EndAnchor, "");
    ReplaceWhole(EndAnchor, "");
  }

  /** The alternation `(?:r1)|(?:r2)|...|(?:rn)` built by joining. */
  function Alternation(fragments: seq<string>): string {
    "(?:" + Join(")|(?:", fragments) + ")"
  }

  /**
   * `merge_regexes`. The current code turns the alternation of nothing, `(?:)`, into `""`;
   * the legacy code returns the alternation as it is.
   */
  function MergeRegexes(fragments: seq<string>, variant: Variant): (r: string)
    ensures r == "" <==> variant.MergeHasEmptyCase() && (fragments == [] || fragments == [""])
    ensures r != "" ==> r == Alternation(fragments)
  {
    var merged := Alternation(fragments);
    AlternationEmptyIff(fragments);
    if variant.MergeHasEmptyCase() && merged == "(?:)" then "" else merged
  }

  /** The alternation is `(?:)` exactly when there is no fragment or a single empty one. */
  lemma AlternationEmptyIff(fragments: seq<string>)
    ensures Alternation(fragments) == "(?:)" <==> fragments == [] || fragments == [""]
  {
    var j := Join(")|(?:", fragments);
    assert |Alternation(fragments)| == |j| + 4;
    if |fragments| >= 2 {
      assert |j| >= 5;
    }
    if j == "" {
      assert Alternation(fragments) == "(?:)";
    }
    if fragments == [""] {
      assert j == "";
    }
  }

  /** Appending a fragment appends exactly one alternative after the others. */
  lemma {:induction false} AlternationSnoc(fragments: seq<string>, x: string)
    requires fragments != []
    ensures Alternation(fragments + [x]) == Alternation(fragments) + "|(?:" + x + ")"
  {
    JoinSnoc(")|(?:", fragments, x);
  }

  /** The regular expression the exclude globs compile to. */
  function ExcludeRegex(globs: seq<string>, translate: string -> string, variant: Variant): string {
    MergeRegexes(seq(|globs|, k requires 0 <= k < |globs| => FnToRegex(translate(globs[k]))), variant)
  }

  /** The priority marker `\(([0-9]{1,2})\)` where it starts at index `i`, with its value. */
  function MarkerAt(s: string, i: nat): (r: Option<int>)
    ensures r.Some? ==> 0 <= r.value <= 99
  {
    if i + 3 <= |s| && s[i] == '(' && IsDigit(s[i + 1]) then
      if i + 4 <= |s| && IsDigit(s[i + 2]) && s[i + 3] == ')' then
        Some(DigitValue(s[i + 1]) * 10 + DigitValue(s[i + 2]))
      else if s[i + 2] == ')' then Some(DigitValue(s[i + 1]))
      else None
    else None
  }

  /** `re.search` for the marker from index `k` on: the leftmost match wins. */
  function FirstMarker(s: string, k: nat): (r: Option<int>)
    ensures r.Some? ==> 0 <= r.value <= 99
    decreases |s| - k
  {
    if k >= |s| then None
    else if MarkerAt(s, k).Some? then MarkerAt(s, k)
    else FirstMarker(s, k + 1)
  }

  /** The priority of a note: the value of its first marker, or 50 without one. */
  function PriorityOf(note: string): (p: int)
    ensures 0 <= p <= 99
  {
    match FirstMarker(note, 0)
    case Some(v) => v
    case None => 50
  }

  /** The leftmost marker decides. */
  lemma {:induction false} FirstMarkerIsLeftmost(s: string, k: nat, i: nat)
    requires k <= i && MarkerAt(s, i).Some?
    requires forall j :: k <= j < i ==> MarkerAt(s, j).None?
    ensures FirstMarker(s, k) == MarkerAt(s, i)
    decreases i - k
  {
    if k < i {
      FirstMarkerIsLeftmost(s, k + 1, i);
    }
  }

  /** The search finds nothing exactly when no position holds a marker. */
  lemma {:induction false} FirstMarkerNoneIff(s: string, k: nat)
    ensures FirstMarker(s, k).None? <==> forall j :: k <= j < |s| ==> MarkerAt(s, j).None?
    decreases |s| - k
  {
    if k < |s| {
      FirstMarkerNoneIff(s, k + 1);
    }
  }

  /** The priority is the value of the leftmost marker in the note. */
  lemma PriorityIsFirstMarker(note: string, i: nat)
    requires MarkerAt(note, i).Some?
    requires forall j :: 0 <= j < i ==> MarkerAt(note, j).None?
    ensures PriorityOf(note) == MarkerAt(note, i).value
  {
    FirstMarkerIsLeftmost(note, 0, i);
  }

  /** Without any marker the priority is 50. */
  lemma PriorityDefault(note: string)
    requires forall j :: 0 <= j < |note| ==> MarkerAt(note, j).None?
    ensures PriorityOf(note) == 50
  {
    FirstMarkerNoneIff(note, 0);
  }

  /** A marker value is read as a decimal integer: `(05)` is 5. */
  lemma PriorityExamples()
    ensures PriorityOf("(5): fix this") == 5
    ensures PriorityOf("x (05)") == 5
    ensures PriorityOf("(123)") == 50
    ensures PriorityOf("(7) before (8)") == 7
    ensures PriorityOf("") == 50
  {
    assert MarkerAt("(5): fix this", 0) == Some(5);
    PriorityIsFirstMarker("x (05)", 2);
    PriorityDefault("(123)");
    assert MarkerAt("(7) before (8)", 0) == Some(7);
  }
}
