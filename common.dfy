/** Small shared vocabulary: an optional value and the two code variants of the plugin. */
module Common {

  datatype Option<+T> = None | Some(value: T)

  /** The elements of a sequence, as a set. */
  function Elems<T>(s: seq<T>): set<T> {
    set x | x in s
  }

  /** No element occurs twice. */
  predicate Distinct<T(==)>(s: seq<T>) {
    forall i, j :: 0 <= i < j < |s| ==> s[i] != s[j]
  }

  /** The concatenation of `f(x)` over the elements `x` of `s`, in order. */
  function FlatMap<T, U>(f: T -> seq<U>, s: seq<T>): seq<U> {
    if s == [] then [] else FlatMap(f, s[..|s| - 1]) + f(s[|s| - 1])
  }

  lemma {:induction false} FlatMapConcat<T, U>(f: T -> seq<U>, a: seq<T>, b: seq<T>)
    ensures FlatMap(f, a + b) == FlatMap(f, a) + FlatMap(f, b)
    decreases |b|
  {
    if b == [] {
      assert a + b == a;
    } else {
      var ab := a + b;
      assert ab[..|ab| - 1] == a + b[..|b| - 1];
      assert ab[|ab| - 1] == b[|b| - 1];
      FlatMapConcat(f, a, b[..|b| - 1]);
    }
  }

  lemma ElemsConcat<T>(a: seq<T>, b: seq<T>)
    ensures Elems(a + b) == Elems(a) + Elems(b)
  {
  }

  /**
   * The repository carries the same plugin three times. `Current` is plugin/TodoReview.py
   * (plugin/sublime_text/TodoReview.py has the same logic); `Legacy` is the older root
   * TodoReview.py. Each predicate below names one place where the two behave differently.
   */
  datatype Variant = Current | Legacy {

    /** `merge_regexes` turns the empty alternation `(?:)` into `""` (Current only). */
    predicate MergeHasEmptyCase() { this == Current }

    /** The sort key of a tag without a weight is "No title" (Current) or the tag itself (Legacy). */
    predicate FallsBackToTag() { this == Legacy }

    /** Result lines are built by chained `str.replace` (Legacy) rather than by formatting. */
    predicate ChainedLineFormat() { this == Legacy }

    /**
     * Disk files are iterated lazily (Legacy), so the findings of the lines read before a
     * decoding error are kept; Current reads all lines first with `readlines()`.
     */
    predicate KeepsLinesBeforeError() { this == Legacy }
  }
}
