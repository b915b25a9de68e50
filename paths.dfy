/**
 * The parts of `posixpath` that `draw_file` uses (plugin/TodoReview.py:364-367):
 * `basename`, `dirname`, and the list slice `f[-depth:]`.
 */
module Paths {
  import opened System

  /** The index just after the last `/` of `p`, 0 when there is none. */
  function TailStart(p: Path): (k: nat)
    ensures k <= |p|
    ensures k > 0 ==> p[k - 1] == '/'
    ensures forall i :: k <= i < |p| ==> p[i] != '/'
  {
    if p == [] then 0 else if p[|p| - 1] == '/' then |p| else TailStart(p[..|p| - 1])
  }

  /** `os.path.basename`. */
  function Basename(p: Path): Path {
    p[TailStart(p)..]
  }

  predicate AllSlashes(s: string) {
    forall i :: 0 <= i < |s| ==> s[i] == '/'
  }

  /** `s.rstrip("/")`. */
  function StripSlashes(s: string): (r: string)
    ensures r <= s
    ensures r == [] || r[|r| - 1] != '/'
    ensures forall i :: |r| <= i < |s| ==> s[i] == '/'
  {
    if s != [] && s[|s| - 1] == '/' then StripSlashes(s[..|s| - 1]) else s
  }

  /** `os.path.dirname`: the head before the last `/`, trailing slashes stripped unless it is all slashes. */
  function Dirname(p: Path): Path {
    var head := p[..TailStart(p)];
    if head != [] && !AllSlashes(head) then StripSlashes(head) else head
  }

  /** The base name holds no slash and is what follows the last one. */
  lemma BasenameTail(p: Path)
    ensures '/' !in Basename(p)
    ensures p == p[..TailStart(p)] + Basename(p)
  {
    var k := TailStart(p);
    var t := p[k..];
    assert Basename(p) == t;
    forall i | 0 <= i < |t| ensures t[i] != '/' {
      assert t[i] == p[k + i];
    }
    assert p == p[..k] + t;
  }

  /**
   * A path is its directory, then only slashes, then its base name; the directory ends
   * in a slash only when it is made of slashes.
   */
  lemma DirnameBasename(p: Path)
    ensures '/' !in Basename(p)
    ensures p == Dirname(p) + p[|Dirname(p)|..TailStart(p)] + Basename(p)
    ensures AllSlashes(p[|Dirname(p)|..TailStart(p)])
    ensures Dirname(p) == [] || Dirname(p)[|Dirname(p)| - 1] != '/' || AllSlashes(Dirname(p))
  {
    var k := TailStart(p);
    var head := p[..k];
    BasenameTail(p);
    var d := Dirname(p);
    if head != [] && !AllSlashes(head) {
      StripTail(head);
    }
    HeadParts(p, k, d);
  }

  /** A prefix `d` of the head `p[..k]`, followed by slashes only, splits the path in three. */
  lemma HeadParts(p: string, k: int, d: string)
    requires 0 <= k <= |p| && d <= p[..k] && AllSlashes(p[..k][|d|..])
    ensures p == d + p[|d|..k] + p[k..] && AllSlashes(p[|d|..k])
  {
    assert p[..k][|d|..] == p[|d|..k];
    assert p[..|d|] == d;
    assert p == p[..|d|] + p[|d|..k] + p[k..];
  }

  /** What `rstrip` removes is slashes only. */
  lemma StripTail(s: string)
    ensures s == StripSlashes(s) + s[|StripSlashes(s)|..]
    ensures AllSlashes(s[|StripSlashes(s)|..])
  {
    var r := StripSlashes(s);
    var t := s[|r|..];
    forall i | 0 <= i < |t| ensures t[i] == '/' {
      assert t[i] == s[|r| + i];
    }
  }

  /**
   * `f[-depth:]` on a list: depth 0 keeps everything, a positive depth keeps at most the
   * last `depth` items, a negative one drops the first `-depth`.
   */
  function SliceFromEnd(parts: seq<string>, depth: int): (r: seq<string>)
    ensures |r| <= |parts| && r == parts[|parts| - |r|..]
    ensures depth == 0 ==> r == parts
    ensures depth > 0 ==> |r| == if depth < |parts| then depth else |parts|
    ensures depth < 0 ==> |r| == if |parts| + depth > 0 then |parts| + depth else 0
  {
    var start := if depth > 0 then (if depth < |parts| then |parts| - depth else 0)
                 else if -depth < |parts| then -depth else |parts|;
    parts[start..]
  }
}
