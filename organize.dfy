/**
 * How `TodoReviewRenderCommand.sort` (plugin/TodoReview.py:298-310) orders and groups
 * the findings: a stable sort by `(str(weight), priority)`, then `itertools.groupby` by tag.
 */
module Organize {
  import opened Common
  import opened Text
  import opened Configuration
  import opened Extraction

  /** Python's `<` on strings: lexicographic by character code. */
  predicate StrLt(a: string, b: string)
    decreases |a|
  {
    if a == [] then b != []
    else if b == [] then false
    else if a[0] != b[0] then a[0] < b[0]
    else StrLt(a[1..], b[1..])
  }

  lemma {:induction false} StrLtIrreflexive(a: string)
    ensures !StrLt(a, a)
    decreases |a|
  {
    if a != [] {
      StrLtIrreflexive(a[1..]);
    }
  }

  lemma {:induction false} StrLtTransitive(a: string, b: string, c: string)
    requires StrLt(a, b) && StrLt(b, c)
    ensures StrLt(a, c)
    decreases |a|
  {
    if a != [] && b != [] && c != [] && a[0] == b[0] && b[0] == c[0] {
      StrLtTransitive(a[1..], b[1..], c[1..]);
    }
  }

  /** Any two different strings are ordered one way or the other. */
  lemma {:induction false} StrLtTotal(a: string, b: string)
    requires a != b
    ensures StrLt(a, b) || StrLt(b, a)
    decreases |a|
  {
    if a != [] && b != [] && a[0] == b[0] {
      assert a == [a[0]] + a[1..] && b == [b[0]] + b[1..];
      StrLtTotal(a[1..], b[1..]);
    }
  }

  /** The sort key of a finding. */
  datatype Key = Key(weight: string, priority: int)

  /** Python's `<` on the `(str, int)` key tuples. */
  predicate KeyLt(x: Key, y: Key) {
    StrLt(x.weight, y.weight) || (x.weight == y.weight && x.priority < y.priority)
  }

  lemma KeyLtIrreflexive(x: Key)
    ensures !KeyLt(x, x)
  {
    StrLtIrreflexive(x.weight);
  }

  lemma KeyLtTransitive(x: Key, y: Key, z: Key)
    requires KeyLt(x, y) && KeyLt(y, z)
    ensures KeyLt(x, z)
  {
    if StrLt(x.weight, y.weight) && StrLt(y.weight, z.weight) {
      StrLtTransitive(x.weight, y.weight, z.weight);
    }
  }

  lemma KeyLtTotal(x: Key, y: Key)
    requires x != y
    ensures KeyLt(x, y) || KeyLt(y, x)
  {
    if x.weight != y.weight {
      StrLtTotal(x.weight, y.weight);
    }
  }

  /** `str(weight)`: a number in decimal, a string as it is. */
  function WeightText(w: Weight): string {
    match w
    case Num(n) => Decimal(n)
    case Name(s) => s
  }

  /**
   * The key of a finding: the weight configured for its upper-cased tag, or without one
   * "No title" (current) or the tag itself (legacy), then its priority.
   */
  function SortKey(weights: map<string, Weight>, variant: Variant, f: Finding): Key {
    var tag := Upper(f.patt);
    var weight := if tag in weights then WeightText(weights[tag])
                  else if variant.FallsBackToTag() then f.patt else "No title";
    Key(weight, f.priority)
  }

  /** The ordering context: the weights and the variant that decide the keys. */
  datatype Order = Order(weights: map<string, Weight>, variant: Variant) {
    function KeyOf(f: Finding): Key {
      SortKey(weights, variant, f)
    }

    /** `s` is ordered by key: no later element has a smaller key than an earlier one. */
    predicate Sorted(s: seq<Finding>) {
      forall i, j :: 0 <= i < j < |s| ==> !KeyLt(KeyOf(s[j]), KeyOf(s[i]))
    }

    /** Insertion of `x` after every element whose key is not greater than its own. */
    function Insert(s: seq<Finding>, x: Finding): (r: seq<Finding>)
      ensures |r| == |s| + 1
    {
      if s == [] then [x]
      else if KeyLt(KeyOf(x), KeyOf(s[|s| - 1])) then Insert(s[..|s| - 1], x) + [s[|s| - 1]]
      else s + [x]
    }

    /** `sorted(results, key=...)`: Python's sort is stable, so equal keys keep their order. */
    function Sort(s: seq<Finding>): (r: seq<Finding>)
      ensures |r| == |s|
    {
      if s == [] then [] else Insert(Sort(s[..|s| - 1]), s[|s| - 1])
    }

    /** The findings of `s` whose key is `k`, in order. */
    function WithKey(s: seq<Finding>, k: Key): seq<Finding> {
      if s == [] then []
      else WithKey(s[..|s| - 1], k) + (if KeyOf(s[|s| - 1]) == k then [s[|s| - 1]] else [])
    }
  }

  lemma {:induction false} InsertPermutes(o: Order, s: seq<Finding>, x: Finding)
    ensures multiset(o.Insert(s, x)) == multiset(s) + multiset{x}
  {
    if s != [] && KeyLt(o.KeyOf(x), o.KeyOf(s[|s| - 1])) {
      var init := s[..|s| - 1];
      InsertPermutes(o, init, x);
      assert s == init + [s[|s| - 1]];
    }
  }

  /** Every element of the result is bounded by the last element when `x` is. */
  lemma InsertBelow(o: Order, s: seq<Finding>, x: Finding, y: Finding)
    requires forall i :: 0 <= i < |s| ==> !KeyLt(o.KeyOf(y), o.KeyOf(s[i]))
    requires !KeyLt(o.KeyOf(y), o.KeyOf(x))
    ensures forall i :: 0 <= i < |o.Insert(s, x)| ==> !KeyLt(o.KeyOf(y), o.KeyOf(o.Insert(s, x)[i]))
  {
    var r := o.Insert(s, x);
    InsertPermutes(o, s, x);
    forall i | 0 <= i < |r| ensures !KeyLt(o.KeyOf(y), o.KeyOf(r[i])) {
      assert r[i] in multiset(r);
      assert r[i] in multiset(s) || r[i] == x;
      if r[i] != x {
        var j :| 0 <= j < |s| && s[j] == r[i];
      }
    }
  }

  lemma {:induction false} InsertSorted(o: Order, s: seq<Finding>, x: Finding)
    requires o.Sorted(s)
    ensures o.Sorted(o.Insert(s, x))
  {
    if s == [] {
    } else {
      var init := s[..|s| - 1];
      var last := s[|s| - 1];
      if KeyLt(o.KeyOf(x), o.KeyOf(last)) {
        assert o.Sorted(init);
        InsertSorted(o, init, x);
        var r := o.Insert(init, x);
        KeyLtIrreflexive(o.KeyOf(last));
        forall i | 0 <= i < |init| ensures !KeyLt(o.KeyOf(last), o.KeyOf(init[i])) {
          assert s[i] == init[i];
        }
        if KeyLt(o.KeyOf(last), o.KeyOf(x)) {
          KeyLtTransitive(o.KeyOf(x), o.KeyOf(last), o.KeyOf(x));
          KeyLtIrreflexive(o.KeyOf(x));
        }
        InsertBelow(o, init, x, last);
      } else {
        forall i | 0 <= i < |s| ensures !KeyLt(o.KeyOf(x), o.KeyOf(s[i])) {
          if KeyLt(o.KeyOf(x), o.KeyOf(s[i])) {
            if o.KeyOf(s[i]) == o.KeyOf(last) {
            } else if i < |s| - 1 {
              KeyLtTotal(o.KeyOf(s[i]), o.KeyOf(last));
              KeyLtTransitive(o.KeyOf(x), o.KeyOf(s[i]), o.KeyOf(last));
            }
          }
        }
      }
    }
  }

  /** The sort returns its input in order. */
  lemma {:induction false} SortSorted(o: Order, s: seq<Finding>)
    ensures o.Sorted(o.Sort(s))
  {
    if s != [] {
      SortSorted(o, s[..|s| - 1]);
      InsertSorted(o, o.Sort(s[..|s| - 1]), s[|s| - 1]);
    }
  }

  /** The sort is a permutation of its input. */
  lemma {:induction false} SortPermutes(o: Order, s: seq<Finding>)
    ensures multiset(o.Sort(s)) == multiset(s)
  {
    if s != [] {
      var init := s[..|s| - 1];
      var last := s[|s| - 1];
      var sorted := o.Sort(init);
      SortPermutes(o, init);
      InsertPermutes(o, sorted, last);
      assert o.Sort(s) == o.Insert(sorted, last);
      MultisetSnoc(s);
    }
  }

  lemma Snoc<T>(s: seq<T>)
    requires s != []
    ensures s == s[..|s| - 1] + [s[|s| - 1]]
  {
  }

  lemma MultisetSnoc<T>(s: seq<T>)
    requires s != []
    ensures multiset(s) == multiset(s[..|s| - 1]) + multiset{s[|s| - 1]}
  {
    Snoc(s);
  }

  lemma SwapEmpty<T>(a: seq<T>, xs: seq<T>, ys: seq<T>)
    requires xs == [] || ys == []
    ensures a + xs + ys == a + ys + xs
  {
  }

  lemma WithKeySnoc(o: Order, s: seq<Finding>, y: Finding, k: Key)
    ensures o.WithKey(s + [y], k) == o.WithKey(s, k) + (if o.KeyOf(y) == k then [y] else [])
  {
    assert (s + [y])[..|s + [y]| - 1] == s;
  }

  /** Inserting `x` puts it after every element with its own key. */
  lemma {:induction false} InsertWithKey(o: Order, s: seq<Finding>, x: Finding, k: Key)
    ensures o.WithKey(o.Insert(s, x), k) == o.WithKey(s, k) + (if o.KeyOf(x) == k then [x] else [])
  {
    if s == [] {
      assert o.WithKey([x], k) == o.WithKey([] + [x], k);
      WithKeySnoc(o, [], x, k);
    } else {
      var init := s[..|s| - 1];
      var last := s[|s| - 1];
      Snoc(s);
      var xs: seq<Finding> := if o.KeyOf(x) == k then [x] else [];
      var ls: seq<Finding> := if o.KeyOf(last) == k then [last] else [];
      WithKeySnoc(o, init, last, k);
      if KeyLt(o.KeyOf(x), o.KeyOf(last)) {
        InsertWithKey(o, init, x, k);
        var r := o.Insert(init, x);
        assert o.Insert(s, x) == r + [last];
        WithKeySnoc(o, r, last, k);
        KeyLtIrreflexive(o.KeyOf(x));
        SwapEmpty(o.WithKey(init, k), xs, ls);
      } else {
        assert o.Insert(s, x) == s + [x];
        WithKeySnoc(o, s, x, k);
      }
    }
  }

  /** Stability: the findings with any one key come out in the order they went in. */
  lemma {:induction false} SortStable(o: Order, s: seq<Finding>, k: Key)
    ensures o.WithKey(o.Sort(s), k) == o.WithKey(s, k)
  {
    if s != [] {
      var init := s[..|s| - 1];
      SortStable(o, init, k);
      InsertWithKey(o, o.Sort(init), s[|s| - 1], k);
    }
  }

  /** An unweighted tag sorts by its own name in the legacy code and as "No title" otherwise. */
  lemma UnweightedKey(weights: map<string, Weight>, f: Finding)
    requires Upper(f.patt) !in weights
    ensures SortKey(weights, Legacy, f) == Key(f.patt, f.priority)
    ensures SortKey(weights, Current, f) == Key("No title", f.priority)
  {
  }

  /** A group: a tag and the findings of one run. */
  type Group = (string, seq<Finding>)

  /** One step of `groupby`: `x` joins the last run when it has the same tag, else starts one. */
  function Extend(gs: seq<Group>, x: Finding): seq<Group> {
    if gs != [] && gs[|gs| - 1].0 == x.patt then
      gs[..|gs| - 1] + [(x.patt, gs[|gs| - 1].1 + [x])]
    else
      gs + [(x.patt, [x])]
  }

  /** `itertools.groupby(results, key=patt)`: the maximal runs of findings with one tag. */
  function GroupBy(s: seq<Finding>): seq<Group> {
    if s == [] then [] else Extend(GroupBy(s[..|s| - 1]), s[|s| - 1])
  }

  /** Non-empty runs whose findings carry the run's tag, neighbours with different tags. */
  predicate Runs(gs: seq<Group>) {
    (forall g :: 0 <= g < |gs| ==> gs[g].1 != [] && forall f :: f in gs[g].1 ==> f.patt == gs[g].0) &&
    (forall g :: 0 < g < |gs| ==> gs[g - 1].0 != gs[g].0)
  }

  lemma ExtendGroups(gs: seq<Group>, x: Finding)
    ensures Groups(Extend(gs, x)) == Groups(gs) + [x]
  {
    if gs != [] && gs[|gs| - 1].0 == x.patt {
      var butLast := gs[..|gs| - 1];
      var g := gs[|gs| - 1];
      assert gs == butLast + [g];
      GroupsSnoc(butLast, g);
      GroupsSnoc(butLast, (x.patt, g.1 + [x]));
    } else {
      GroupsSnoc(gs, (x.patt, [x]));
    }
  }

  lemma ExtendRuns(gs: seq<Group>, x: Finding)
    requires Runs(gs)
    ensures Runs(Extend(gs, x))
    ensures Extend(gs, x)[|Extend(gs, x)| - 1].0 == x.patt
  {
    var r := Extend(gs, x);
    assert forall i :: 0 <= i < |r| - 1 ==> r[i] == gs[i];
  }

  /** The groups are the input cut into pieces: concatenated, they give it back. */
  lemma {:induction false} GroupByFlattens(s: seq<Finding>)
    ensures Groups(GroupBy(s)) == s
  {
    if s != [] {
      var init := s[..|s| - 1];
      GroupByFlattens(init);
      ExtendGroups(GroupBy(init), s[|s| - 1]);
      Snoc(s);
    }
  }

  /**
   * Every group is a non-empty run of findings of its own tag, and neighbouring groups
   * have different tags, so each run is maximal; there are groups exactly when there are
   * findings.
   */
  lemma {:induction false} GroupByRuns(s: seq<Finding>)
    ensures Runs(GroupBy(s))
    ensures GroupBy(s) == [] <==> s == []
  {
    if s != [] {
      GroupByRuns(s[..|s| - 1]);
      ExtendRuns(GroupBy(s[..|s| - 1]), s[|s| - 1]);
    }
  }

  /** The concatenation of the groups' findings. */
  function Groups(gs: seq<Group>): seq<Finding> {
    if gs == [] then [] else Groups(gs[..|gs| - 1]) + gs[|gs| - 1].1
  }

  lemma GroupsSnoc(gs: seq<Group>, g: Group)
    ensures Groups(gs + [g]) == Groups(gs) + g.1
  {
    assert (gs + [g])[..|gs + [g]| - 1] == gs;
  }
}
