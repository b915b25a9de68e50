/**
 * Settings lookup (`Settings` in plugin/TodoReview.py:70-79) and the typed configuration
 * the engine and the renderer read from it, with the defaults the code passes to `get`.
 */
module Configuration {
  import opened Common

  /**
   * The two settings layers: `proj` (the command's `settings` argument, or the view's
   * "todoreview" project settings) in front of `user` (TodoReview.sublime-settings).
   */
  datatype Settings<V> = Settings(proj: map<string, V>, user: map<string, V>) {

    /** `Settings.get(key, default)`: project value, else user value, else the default. */
    function Get(key: string, default: V): (r: V)
      ensures key in proj ==> r == proj[key]
      ensures key !in proj && key in user ==> r == user[key]
      ensures key !in proj && key !in user ==> r == default
    {
      if key in proj then proj[key] else if key in user then user[key] else default
    }
  }

  /** `Settings.__init__`: a non-empty `settings` argument replaces the project settings. */
  function LoadSettings<V>(viewProject: map<string, V>, args: map<string, V>, user: map<string, V>): Settings<V> {
    Settings(if |args| == 0 then viewProject else args, user)
  }

  /** The lookup is the user map overlaid by the project map. */
  lemma GetIsOverlay<V>(s: Settings<V>, key: string, default: V)
    ensures s.Get(key, default) == if key in s.user + s.proj then (s.user + s.proj)[key] else default
  {
  }

  /**
   * With a non-empty `settings` argument the view's project settings are not consulted at
   * all, not even for keys the argument lacks: those come from the user layer.
   */
  lemma ArgsHideViewProject<V>(vp1: map<string, V>, vp2: map<string, V>, args: map<string, V>,
                               user: map<string, V>, key: string, default: V)
    requires |args| > 0
    ensures LoadSettings(vp1, args, user).Get(key, default) == LoadSettings(vp2, args, user).Get(key, default)
    ensures key !in args ==> LoadSettings(vp1, args, user).Get(key, default) == Settings(map[], user).Get(key, default)
  {
  }

  /** A JSON-like settings value. */
  datatype Value =
    | Null
    | Bool(b: bool)
    | Int(n: int)
    | Text(s: string)
    | List(items: seq<Value>)
    | Table(entries: seq<(string, Value)>)

  /** Python truthiness: `if value:`. */
  predicate Truthy(v: Value) {
    match v
    case Null => false
    case Bool(b) => b
    case Int(n) => n != 0
    case Text(s) => s != ""
    case List(items) => items != []
    case Table(entries) => entries != []
  }

  /** A tag's sort weight (`patterns_weight`): a number, or the text that stands for it. */
  datatype Weight = Num(n: int) | Name(s: string)

  /**
   * The weight a table value gives: ints are kept as numbers, and `str()` of a string,
   * `true`, `false` and `null` is the string itself, "True", "False" and "None". Lists
   * and objects give none here.
   */
  function WeightOf(v: Value): Option<Weight> {
    match v
    case Null => Some(Name("None"))
    case Bool(b) => Some(Name(if b then "True" else "False"))
    case Int(n) => Some(Num(n))
    case Text(s) => Some(Name(s))
    case _ => None
  }

  /** `render_folder_depth`: the string "auto" or a number of folders. */
  datatype Depth = Auto | Levels(n: int)

  /** The settings each part of the plugin reads, already typed. */
  datatype Config = Config(
    caseSensitive: bool,
    patterns: seq<string>,
    excludeFiles: seq<string>,
    excludeFolders: seq<string>,
    encoding: string,
    resolveSymlinks: bool,
    includePaths: seq<string>,
    maxSpaces: int,
    weights: map<string, Weight>,
    headerFormat: string,
    headerDate: string,
    includeFolder: bool,
    folderDepth: Depth,
    forwardSkip: int,
    backwardSkip: int)

  const DefaultHeaderFormat: string := "%d - %c files in %t secs"
  const DefaultHeaderDate: string := "%A %m/%d/%y at %I:%M%p"

  function TextOr(v: Value, default: string): string {
    if v.Text? then v.s else default
  }

  function IntOr(v: Value, default: int): int {
    if v.Int? then v.n else default
  }

  /** The string items of a list, in order. */
  function Texts(items: seq<Value>): seq<string> {
    if items == [] then []
    else (if items[0].Text? then [items[0].s] else []) + Texts(items[1..])
  }

  function TextsOr(v: Value): seq<string> {
    if v.List? then Texts(v.items) else []
  }

  /**
   * A JSON object as the Python dict it loads into: each key once, at the place of its
   * first entry, holding the value of its last entry.
   */
  function Dict(entries: seq<(string, Value)>): seq<(string, Value)> {
    if entries == [] then []
    else
      var (k, v) := entries[|entries| - 1];
      Put(Dict(entries[..|entries| - 1]), k, v)
  }

  /** `d[k] = v`: an existing key keeps its place and takes the new value, a new key goes last. */
  function Put(d: seq<(string, Value)>, k: string, v: Value): seq<(string, Value)> {
    if d == [] then [(k, v)]
    else if d[0].0 == k then [(k, v)] + d[1..]
    else [d[0]] + Put(d[1..], k, v)
  }

  /** The keys of the entries, in order. */
  function Keys(d: seq<(string, Value)>): seq<string> {
    seq(|d|, i requires 0 <= i < |d| => d[i].0)
  }

  /** The elements of `s` in the order of their first occurrence, each once. */
  function Dedup(s: seq<string>): seq<string> {
    if s == [] then []
    else
      var r := Dedup(s[..|s| - 1]);
      if s[|s| - 1] in r then r else r + [s[|s| - 1]]
  }

  /** The value of the first entry for `k`. */
  function Lookup(d: seq<(string, Value)>, k: string): Option<Value> {
    if d == [] then None else if d[0].0 == k then Some(d[0].1) else Lookup(d[1..], k)
  }

  /** The value of the last entry for `k`. */
  function Last(entries: seq<(string, Value)>, k: string): Option<Value> {
    if entries == [] then None
    else if entries[|entries| - 1].0 == k then Some(entries[|entries| - 1].1)
    else Last(entries[..|entries| - 1], k)
  }

  lemma {:induction false} PutKeys(d: seq<(string, Value)>, k: string, v: Value)
    ensures Keys(Put(d, k, v)) == if k in Keys(d) then Keys(d) else Keys(d) + [k]
  {
    if d != [] {
      PutKeys(d[1..], k, v);
      assert Keys(d) == [d[0].0] + Keys(d[1..]);
      assert Keys([(k, v)] + d[1..]) == [k] + Keys(d[1..]);
      assert Keys([d[0]] + Put(d[1..], k, v)) == [d[0].0] + Keys(Put(d[1..], k, v));
    }
  }

  lemma {:induction false} PutLookup(d: seq<(string, Value)>, k: string, v: Value, k': string)
    ensures Lookup(Put(d, k, v), k') == if k' == k then Some(v) else Lookup(d, k')
  {
    if d != [] && d[0].0 != k {
      PutLookup(d[1..], k, v, k');
      assert ([d[0]] + Put(d[1..], k, v))[1..] == Put(d[1..], k, v);
    } else if d != [] {
      assert ([(k, v)] + d[1..])[1..] == d[1..];
    }
  }

  /** Distinct keys: each entry is the one `Lookup` finds for its key. */
  lemma {:induction false} LookupDistinct(d: seq<(string, Value)>, i: int)
    requires Distinct(Keys(d)) && 0 <= i < |d|
    ensures Lookup(d, d[i].0) == Some(d[i].1)
  {
    if i > 0 {
      assert Keys(d)[0] != Keys(d)[i];
      var t := d[1..];
      assert Keys(t) == Keys(d)[1..];
      assert t[i - 1] == d[i];
      LookupDistinct(t, i - 1);
    }
  }

  /** `Dedup` keeps every element and no element twice. */
  lemma {:induction false} DedupDistinct(s: seq<string>)
    ensures Distinct(Dedup(s)) && Elems(Dedup(s)) == Elems(s)
  {
    if s != [] {
      var init := s[..|s| - 1];
      DedupDistinct(init);
      assert s == init + [s[|s| - 1]];
      ElemsConcat(init, [s[|s| - 1]]);
      if s[|s| - 1] !in Dedup(init) {
        ElemsConcat(Dedup(init), [s[|s| - 1]]);
      }
    }
  }

  /** The dict's keys are the table's keys in the order of their first entry, each once. */
  lemma {:induction false} DictKeys(entries: seq<(string, Value)>)
    ensures Keys(Dict(entries)) == Dedup(Keys(entries))
    ensures Distinct(Keys(Dict(entries)))
  {
    if entries != [] {
      var init := entries[..|entries| - 1];
      var (k, v) := entries[|entries| - 1];
      DictKeys(init);
      PutKeys(Dict(init), k, v);
      assert Keys(entries)[..|entries| - 1] == Keys(init);
    }
    DedupDistinct(Keys(entries));
  }

  /** The dict holds for each key the value of the table's last entry for it. */
  lemma {:induction false} DictLookup(entries: seq<(string, Value)>, k: string)
    ensures Lookup(Dict(entries), k) == Last(entries, k)
  {
    if entries != [] {
      var init := entries[..|entries| - 1];
      var (k0, v) := entries[|entries| - 1];
      DictLookup(init, k);
      PutLookup(Dict(init), k0, v, k);
    }
  }

  /** Every entry of the dict is its key with that key's last value in the table. */
  lemma DictEntries(entries: seq<(string, Value)>, i: int)
    requires 0 <= i < |Dict(entries)|
    ensures Last(entries, Dict(entries)[i].0) == Some(Dict(entries)[i].1)
  {
    DictKeys(entries);
    LookupDistinct(Dict(entries), i);
    DictLookup(entries, Dict(entries)[i].0);
  }

  /** The string values of a dict, in order. */
  function TextValues(d: seq<(string, Value)>): seq<string> {
    if d == [] then []
    else (if d[0].1.Text? then [d[0].1.s] else []) + TextValues(d[1..])
  }

  /** `dict.values()` of a table whose values are strings. */
  function TableTexts(entries: seq<(string, Value)>): seq<string> {
    TextValues(Dict(entries))
  }

  /** A key given twice in `patterns` keeps its first place and its last pattern. */
  lemma PatternsRepeatedKey()
    ensures ReadConfig(Settings(map["patterns" := Table([("TODO", Text("r1")), ("FIXME", Text("r2")), ("TODO", Text("r3"))])], map[])).patterns
      == ["r3", "r2"]
  {
    var e := [("TODO", Text("r1")), ("FIXME", Text("r2")), ("TODO", Text("r3"))];
    assert e[..2] == [("TODO", Text("r1")), ("FIXME", Text("r2"))];
    assert e[..2][..1] == [("TODO", Text("r1"))];
    assert Dict(e[..2][..1]) == [("TODO", Text("r1"))];
    var d1: seq<(string, Value)> := [("TODO", Text("r1"))];
    assert d1[1..] == [];
    assert Put(d1, "FIXME", Text("r2")) == [d1[0]] + Put([], "FIXME", Text("r2"));
    assert Dict(e[..2]) == [("TODO", Text("r1")), ("FIXME", Text("r2"))];
    assert Dict(e) == [("TODO", Text("r3")), ("FIXME", Text("r2"))];
  }

  function TableWeights(entries: seq<(string, Value)>): map<string, Weight> {
    if entries == [] then map[]
    else
      var rest := TableWeights(entries[..|entries| - 1]);
      var (k, v) := entries[|entries| - 1];
      match WeightOf(v)
      case Some(w) => rest[k := w]
      case None => rest
  }

  function DepthOr(v: Value): Depth {
    match v
    case Text(s) => if s == "auto" then Auto else Levels(1)
    case Int(n) => Levels(n)
    case _ => Levels(1)
  }

  /** Every setting read with the key and default the plugin uses. */
  function ReadConfig(s: Settings<Value>): Config {
    Config(
      caseSensitive := Truthy(s.Get("case_sensitive", Bool(false))),
      patterns := var v := s.Get("patterns", Table([])); if v.Table? then TableTexts(v.entries) else [],
      excludeFiles := TextsOr(s.Get("exclude_files", List([]))),
      excludeFolders := TextsOr(s.Get("exclude_folders", List([]))),
      encoding := TextOr(s.Get("encoding", Text("utf-8")), "utf-8"),
      resolveSymlinks := Truthy(s.Get("resolve_symlinks", Bool(true))),
      includePaths := TextsOr(s.Get("include_paths", List([]))),
      maxSpaces := IntOr(s.Get("render_maxspaces", Int(50)), 50),
      weights := var v := s.Get("patterns_weight", Table([])); if v.Table? then TableWeights(v.entries) else map[],
      headerFormat := TextOr(s.Get("render_header_format", Text(DefaultHeaderFormat)), DefaultHeaderFormat),
      headerDate := TextOr(s.Get("render_header_date", Text(DefaultHeaderDate)), DefaultHeaderDate),
      includeFolder := Truthy(s.Get("render_include_folder", Bool(false))),
      folderDepth := DepthOr(s.Get("render_folder_depth", Int(1))),
      forwardSkip := IntOr(s.Get("navigation_forward_skip", Int(10)), 10),
      backwardSkip := IntOr(s.Get("navigation_backward_skip", Int(10)), 10))
  }

  /** With nothing configured every setting takes the default the code passes to `get`. */
  lemma ReadDefaults()
    ensures ReadConfig(Settings(map[], map[])) == Config(
      false, [], [], [], "utf-8", true, [], 50, map[],
      DefaultHeaderFormat, DefaultHeaderDate, false, Levels(1), 10, 10)
  {
  }

  /**
   * A tag has a weight exactly when some entry for it holds a value that gives one, and
   * that weight is the one of the last such entry, as a later key wins in a JSON object.
   */
  lemma {:induction false} TableWeightsLookup(entries: seq<(string, Value)>, k: string)
    ensures k in TableWeights(entries) <==>
      exists i :: 0 <= i < |entries| && entries[i].0 == k && WeightOf(entries[i].1).Some?
    ensures k in TableWeights(entries) ==>
      exists i :: 0 <= i < |entries| && entries[i].0 == k && WeightOf(entries[i].1) == Some(TableWeights(entries)[k]) &&
        forall j :: i < j < |entries| && entries[j].0 == k ==> WeightOf(entries[j].1).None?
  {
    if entries != [] {
      var init := entries[..|entries| - 1];
      TableWeightsLookup(init, k);
      var last := |entries| - 1;
      var m := TableWeights(entries);
      if k in TableWeights(init) {
        var i :| 0 <= i < |init| && init[i].0 == k && WeightOf(init[i].1).Some?;
        assert entries[i] == init[i];
      }
      if exists i :: 0 <= i < |entries| && entries[i].0 == k && WeightOf(entries[i].1).Some? {
        var i :| 0 <= i < |entries| && entries[i].0 == k && WeightOf(entries[i].1).Some?;
        if i < last {
          assert init[i] == entries[i];
        }
      }
      if k in m {
        if entries[last].0 == k && WeightOf(entries[last].1).Some? {
          assert WeightOf(entries[last].1) == Some(m[k]);
        } else {
          assert m[k] == TableWeights(init)[k];
          var i :| 0 <= i < |init| && init[i].0 == k && WeightOf(init[i].1) == Some(TableWeights(init)[k]) &&
            forall j :: i < j < |init| && init[j].0 == k ==> WeightOf(init[j].1).None?;
          assert entries[i] == init[i];
          forall j | i < j < |entries| && entries[j].0 == k
            ensures WeightOf(entries[j].1).None?
          {
            if j < last {
              assert entries[j] == init[j];
            }
          }
        }
      }
    }
  }
}
