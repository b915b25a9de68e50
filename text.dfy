/**
 * The Python string operations the plugin relies on, written out: `str.replace`,
 * `str.join`, `str.split`, `str(int)`, `int(digits)` and an ASCII `str.upper`.
 */
module Text {

  /** `pat` occurs in `s` starting at index `i`. */
  predicate StartsAt(s: string, pat: string, i: int) {
    0 <= i && i + |pat| <= |s| && s[i..i + |pat|] == pat
  }

  /** `pat in s`, for a non-empty `pat`. */
  predicate Contains(s: string, pat: string) {
    exists i :: 0 <= i <= |s| && StartsAt(s, pat, i)
  }

  /**
   * Python's `s.replace(pat, rep)` for a non-empty `pat`: scan left to right, replace each
   * occurrence and continue after it, so occurrences never overlap and the inserted text
   * is never scanned again.
   */
  function Replace(s: string, pat: string, rep: string): string
    requires |pat| > 0
    decreases |s|
  {
    if |s| < |pat| then s
    else if s[..|pat|] == pat then rep + Replace(s[|pat|..], pat, rep)
    else [s[0]] + Replace(s[1..], pat, rep)
  }

  /** A string in which `pat` does not occur comes back unchanged. */
  lemma {:induction false} ReplaceAbsent(s: string, pat: string, rep: string)
    requires |pat| > 0
    requires !Contains(s, pat)
    ensures Replace(s, pat, rep) == s
    decreases |s|
  {
    if |s| >= |pat| {
      assert !StartsAt(s, pat, 0);
      assert s[0..|pat|] == s[..|pat|];
      forall i | StartsAt(s[1..], pat, i) ensures StartsAt(s, pat, i + 1) {
        assert s[1..][i..i + |pat|] == s[i + 1..i + 1 + |pat|];
      }
      ReplaceAbsent(s[1..], pat, rep);
    }
  }

  /** The whole string being one occurrence. */
  lemma ReplaceWhole(pat: string, rep: string)
    requires |pat| > 0
    ensures Replace(pat, pat, rep) == rep
  {
    assert pat[..|pat|] == pat;
    assert pat[|pat|..] == [];
  }

  /** An occurrence in a suffix is an occurrence in the whole string, shifted. */
  lemma StartsAtShift(s: string, k: nat, pat: string, i: nat)
    requires k <= |s|
    ensures StartsAt(s[k..], pat, i) <==> StartsAt(s, pat, i + k)
  {
    if i + |pat| <= |s| - k {
      assert s[k..][i..i + |pat|] == s[i + k..i + k + |pat|];
    }
  }

  /** No occurrence of `pat` starts strictly inside the last `|pat| - 1` characters of `a`. */
  predicate NoStraddle(a: string, b: string, pat: string) {
    forall i :: |a| - |pat| < i < |a| ==> !StartsAt(a + b, pat, i)
  }

  /** Dropping the first `k` characters of `a` keeps the seam free of occurrences. */
  lemma NoStraddleTail(a: string, b: string, pat: string, k: nat)
    requires k <= |a| && NoStraddle(a, b, pat)
    ensures NoStraddle(a[k..], b, pat)
  {
    assert a[k..] + b == (a + b)[k..];
    forall i | |a[k..]| - |pat| < i < |a[k..]|
      ensures !StartsAt(a[k..] + b, pat, i)
    {
      if i >= 0 {
        StartsAtShift(a + b, k, pat, i);
      }
    }
  }

  /** The seam case of `ReplaceConcat`: `a` is shorter than the pattern, so it never matches. */
  lemma {:induction false} ReplaceConcatShort(a: string, b: string, pat: string, rep: string)
    requires |pat| > |a|
    requires NoStraddle(a, b, pat)
    ensures Replace(a + b, pat, rep) == a + Replace(b, pat, rep)
    decreases |a|
  {
    var s := a + b;
    if |a| > 0 {
      assert !StartsAt(s, pat, 0);
      if |s| >= |pat| {
        ReplaceSkip(s, pat, rep);
        assert s[1..] == a[1..] + b;
        NoStraddleTail(a, b, pat, 1);
        ReplaceConcatShort(a[1..], b, pat, rep);
        assert s[0] == a[0] && [a[0]] + a[1..] == a;
      }
    } else {
      assert s == b;
    }
  }

  /** Without an occurrence at the front, `replace` keeps the first character and goes on. */
  lemma ReplaceSkip(s: string, pat: string, rep: string)
    requires 0 < |pat| <= |s| && !StartsAt(s, pat, 0)
    ensures Replace(s, pat, rep) == [s[0]] + Replace(s[1..], pat, rep)
  {
    assert s[0..|pat|] == s[..|pat|];
  }

  /**
   * `replace` distributes over a concatenation when no occurrence straddles the seam.
   * This is always the case for a one-character pattern.
   */
  lemma {:induction false} ReplaceConcat(a: string, b: string, pat: string, rep: string)
    requires |pat| > 0
    requires NoStraddle(a, b, pat)
    ensures Replace(a + b, pat, rep) == Replace(a, pat, rep) + Replace(b, pat, rep)
    decreases |a|
  {
    if |a| < |pat| {
      ReplaceConcatShort(a, b, pat, rep);
    } else {
      var k := ReplaceHead(a, b, pat, rep);
      NoStraddleTail(a, b, pat, k);
      ReplaceConcat(a[k..], b, pat, rep);
    }
  }

  /** One step of `replace` on `a + b` is the same step on `a`, when `a` is long enough to hold `pat`. */
  lemma ReplaceHead(a: string, b: string, pat: string, rep: string) returns (k: nat)
    requires 0 < |pat| <= |a|
    ensures 0 < k <= |a| && (a + b)[k..] == a[k..] + b
    ensures exists head ::
      && Replace(a + b, pat, rep) == head + Replace(a[k..] + b, pat, rep)
      && Replace(a, pat, rep) == head + Replace(a[k..], pat, rep)
  {
    var s := a + b;
    assert s[..|pat|] == a[..|pat|];
    k := if a[..|pat|] == pat then |pat| else 1;
    var head := if a[..|pat|] == pat then rep else [a[0]];
    assert s[k..] == a[k..] + b;
    assert Replace(s, pat, rep) == head + Replace(s[k..], pat, rep);
    assert Replace(a, pat, rep) == head + Replace(a[k..], pat, rep);
  }

  /** A two-character pattern cannot occur in a string that lacks one of its characters. */
  lemma AbsentWithoutChar(s: string, pat: string)
    requires |pat| == 2 && (pat[0] !in s || pat[1] !in s)
    ensures !Contains(s, pat)
  {
    forall i | 0 <= i <= |s| ensures !StartsAt(s, pat, i) {
      if i + 2 <= |s| {
        assert s[i..i + 2][0] == s[i];
        assert s[i..i + 2][1] == s[i + 1];
        assert s[i] in s && s[i + 1] in s;
      }
    }
  }

  /**
   * A two-character pattern straddles the seam only when `a` ends with its first character
   * and `b` starts with its second.
   */
  lemma SeamFree(a: string, b: string, pat: string)
    requires |pat| == 2
    requires a == [] || b == [] || a[|a| - 1] != pat[0] || b[0] != pat[1]
    ensures NoStraddle(a, b, pat)
  {
    forall i | |a| - |pat| < i < |a| ensures !StartsAt(a + b, pat, i) {
      if 0 <= i && i + 2 <= |a + b| {
        assert (a + b)[i..i + 2] == [a[|a| - 1], b[0]];
      }
    }
  }

  /** A prefix free of a two-character pattern, with a clean seam, is kept as it is. */
  lemma ReplaceAfter(a: string, b: string, pat: string, rep: string)
    requires |pat| == 2 && !Contains(a, pat)
    requires a == [] || b == [] || a[|a| - 1] != pat[0] || b[0] != pat[1]
    ensures Replace(a + b, pat, rep) == a + Replace(b, pat, rep)
  {
    SeamFree(a, b, pat);
    ReplaceConcat(a, b, pat, rep);
    ReplaceAbsent(a, pat, rep);
  }

  /** An occurrence at the front is replaced and the scan goes on after it. */
  lemma ReplaceFront(pat: string, b: string, rep: string)
    requires |pat| > 0
    ensures Replace(pat + b, pat, rep) == rep + Replace(b, pat, rep)
  {
    assert (pat + b)[..|pat|] == pat;
    assert (pat + b)[|pat|..] == b;
  }

  /**
   * A text `a + pat + b` with one occurrence of a two-character pattern between two
   * pattern-free parts, the seam before it clean.
   */
  lemma ReplaceSole(a: string, pat: string, b: string, rep: string)
    requires |pat| == 2 && !Contains(a, pat) && (a == [] || a[|a| - 1] != pat[0])
    requires !Contains(b, pat)
    ensures Replace(a + pat + b, pat, rep) == a + rep + b
  {
    var c := pat + b;
    assert a + pat + b == a + c;
    assert c[0] == pat[0];
    ReplaceAfter(a, c, pat, rep);
    ReplaceFront(pat, b, rep);
    ReplaceAbsent(b, pat, rep);
    assert a + (rep + b) == a + rep + b;
  }

  /** `ReplaceSole` for parts that each lack a character of the pattern. */
  lemma ReplaceOnce(a: string, pat: string, b: string, rep: string)
    requires |pat| == 2 && (pat[0] !in a || pat[1] !in a) && (a == [] || a[|a| - 1] != pat[0])
    requires pat[0] !in b || pat[1] !in b
    ensures Replace(a + pat + b, pat, rep) == a + rep + b
  {
    AbsentWithoutChar(a, pat);
    AbsentWithoutChar(b, pat);
    ReplaceSole(a, pat, b, rep);
  }

  /** `ReplaceOnce` for a text `t` given with its split around the occurrence. */
  lemma ReplaceIn(t: string, a: string, pat: string, b: string, rep: string)
    requires t == a + pat + b
    requires |pat| == 2 && (pat[0] !in a || pat[1] !in a) && (a == [] || a[|a| - 1] != pat[0])
    requires pat[0] !in b || pat[1] !in b
    ensures Replace(t, pat, rep) == a + rep + b
  {
    ReplaceOnce(a, pat, b, rep);
  }

  /** `ReplaceIn` for an occurrence at the front of the text. */
  lemma ReplaceAtFront(t: string, pat: string, b: string, rep: string)
    requires t == pat + b
    requires |pat| == 2 && (pat[0] !in b || pat[1] !in b)
    ensures Replace(t, pat, rep) == rep + b
  {
    ReplaceOnce([], pat, b, rep);
    assert [] + pat + b == t;
    assert [] + rep + b == rep + b;
  }

  /**
   * A two-character pattern cannot occur in `x + y` when `x` lacks its first character
   * and `y` its second.
   */
  lemma AbsentAcross(x: string, y: string, pat: string)
    requires |pat| == 2 && pat[0] !in x && pat[1] !in y
    ensures !Contains(x + y, pat)
  {
    var s := x + y;
    forall i | 0 <= i <= |s| ensures !StartsAt(s, pat, i) {
      if i + 2 <= |s| {
        assert s[i..i + 2][0] == s[i] && s[i..i + 2][1] == s[i + 1];
        if i < |x| {
          assert s[i] == x[i];
        } else {
          assert s[i + 1] == y[i + 1 - |x|];
        }
      }
    }
  }

  function Join(sep: string, parts: seq<string>): string {
    if |parts| == 0 then ""
    else if |parts| == 1 then parts[0]
    else parts[0] + sep + Join(sep, parts[1..])
  }

  /** Joining one more part adds the separator and the part. */
  lemma {:induction false} JoinSnoc(sep: string, parts: seq<string>, x: string)
    requires parts != []
    ensures Join(sep, parts + [x]) == Join(sep, parts) + sep + x
  {
    if |parts| == 1 {
      assert parts + [x] == [parts[0], x];
    } else {
      assert (parts + [x])[1..] == parts[1..] + [x];
      JoinSnoc(sep, parts[1..], x);
    }
  }

  /**
   * Python's `s.split(c)` for a one-character separator: the pieces between separators,
   * so there is always at least one piece and no piece holds the separator.
   */
  function Split(s: string, c: char): (r: seq<string>)
    ensures |r| >= 1
    ensures forall k :: 0 <= k < |r| ==> c !in r[k]
  {
    if s == [] then [""]
    else
      var rest := Split(s[1..], c);
      if s[0] == c then [""] + rest
      else [[s[0]] + rest[0]] + rest[1..]
  }

  /** Joining the pieces of a split with the separator gives the string back. */
  lemma {:induction false} JoinSplit(s: string, c: char)
    ensures Join([c], Split(s, c)) == s
  {
    if s != [] {
      var rest := Split(s[1..], c);
      JoinSplit(s[1..], c);
      if s[0] == c {
        assert Split(s, c) == [""] + rest;
        assert ([""] + rest)[1..] == rest;
      } else {
        var r := [[s[0]] + rest[0]] + rest[1..];
        assert Split(s, c) == r;
        if |rest| > 1 {
          assert r[1..] == rest[1..];
        }
      }
    }
  }

  predicate IsDigit(c: char) { '0' <= c <= '9' }

  function DigitChar(d: nat): (c: char)
    requires d < 10
    ensures IsDigit(c)
  {
    ('0' as int + d) as char
  }

  function DigitValue(c: char): (d: nat)
    requires IsDigit(c)
    ensures d < 10
  {
    c as int - '0' as int
  }

  /** The decimal digits of a natural number, most significant first, no leading zero. */
  function Digits(n: nat): (r: string)
    ensures |r| >= 1
    ensures forall k :: 0 <= k < |r| ==> IsDigit(r[k])
    decreases n
  {
    if n < 10 then [DigitChar(n)] else Digits(n / 10) + [DigitChar(n % 10)]
  }

  /** Python's `str(n)` for an integer. */
  function Decimal(n: int): string {
    if n < 0 then "-" + Digits(-n) else Digits(n)
  }

  predicate AllDigits(s: string) {
    forall k :: 0 <= k < |s| ==> IsDigit(s[k])
  }

  /** Python's `int(s)` for a string of ASCII digits. */
  function DigitsValue(s: string): nat
    requires AllDigits(s)
  {
    if s == [] then 0 else DigitsValue(s[..|s| - 1]) * 10 + DigitValue(s[|s| - 1])
  }

  /** `int(str(n)) == n`. */
  lemma {:induction false} DigitsRoundTrip(n: nat)
    ensures DigitsValue(Digits(n)) == n
    decreases n
  {
    var d := Digits(n);
    if n >= 10 {
      DigitsRoundTrip(n / 10);
      assert d[..|d| - 1] == Digits(n / 10);
    }
  }

  /** Distinct numbers have distinct decimal forms. */
  lemma DigitsInjective(m: nat, n: nat)
    requires Digits(m) == Digits(n)
    ensures m == n
  {
    DigitsRoundTrip(m);
    DigitsRoundTrip(n);
  }

  function UpperChar(c: char): char {
    if 'a' <= c <= 'z' then (c as int - 32) as char else c
  }

  /** Python's `s.upper()`, restricted to the ASCII letters. */
  function Upper(s: string): (r: string)
    ensures |r| == |s|
    ensures forall k :: 0 <= k < |r| ==> !('a' <= r[k] <= 'z')
  {
    seq(|s|, k requires 0 <= k < |s| => UpperChar(s[k]))
  }

  /** Python's `" " * n`; a negative count gives the empty string. */
  function Spaces(n: int): (r: string)
    ensures |r| == if n < 0 then 0 else n
    ensures forall k :: 0 <= k < |r| ==> r[k] == ' '
  {
    if n <= 0 then "" else seq(n, _ => ' ')
  }
}
