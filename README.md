# TodoReview in Dafny

TodoReview is a Sublime Text plugin that scans files for TODO-style comments. It lists
each hit in a results view as a "finding": a file, a line, a tag, a note and a priority.
The findings are numbered, grouped by tag and sorted by tag weight and priority. From
the view the user can step through the findings and open the one selected in an editor.

This project models the sequential core of the plugin and proves properties of that
model. The editor, the regular-expression engine and the file system are supplied from
outside.

The repository carries the plugin three times:

- plugin/TodoReview.py, the primary source. The model calls its behaviour `Current`.
- plugin/sublime_text/TodoReview.py. It has the same logic, so it is also `Current`.
- The older root TodoReview.py, which the model calls `Legacy`.

`Common.Variant` names the four places where `Current` and `Legacy` differ:

- `merge_regexes` turns the empty alternation `(?:)` into `""` only in `Current`.
- A tag with no sort weight is keyed "No title" in `Current` and by the tag itself in
  `Legacy`.
- `Legacy` builds result lines by chained `str.replace`.
- `Legacy` reads a disk file lazily, so the findings of lines read before a decoding
  error are kept. `Current` calls `readlines()` first.

Modules, in dependency order:

- `Common`: `Option`, `Variant`, `Elems`, `Distinct` and `FlatMap`.
- `Text`: Python's `str.replace`, modelled concretely as a left-to-right,
  non-overlapping rewrite, plus `"sep".join`, `str.split`, `str(int)`, ASCII `upper()`
  and `" " * n`.
- `Patterns`:
  - `fn_to_regex`;
  - `merge_regexes`;
  - the priority marker `\(([0-9]{1,2})\)`, modelled concretely as the leftmost `(`,
    one or two ASCII digits, `)`.
- `Configuration`:
  - the two-level `Settings.get`;
  - how the settings object is chosen, where command arguments hide the project
    settings;
  - every setting the plugin reads, with its key and default (`ReadConfig`,
    plugin/TodoReview.py:89-131);
  - a JSON object as the Python dict it loads into (`Dict`): each key once, at its first
    place, with its last value. `patterns` is read through it.
- `System`: the foreign operations, which are path functions, `os.walk`, reading a
  file, `fnmatch.translate`, `re.search` and `re.finditer`. It also holds
  `Engine.resolve`.
- `Extraction`: the findings of one match, one line and the lines of one file.
- `Scan`:
  - `Engine` is a class. `files` is its walk loop plus its filter/de-duplication loop
    over the candidate set, and `extract` is its per-file loop.
  - `Thread` is a class, with the counter `i` that `increment` bumps.
- `Targets`: the decision table `Plan` of `TodoReviewCommand.run`
  (plugin/TodoReview.py:205-236) that turns the command arguments into
  `(paths, filepaths)`, or into no scan.
- `Organize`:
  - the sort key `SortKey`, `(str(weight), priority)` (plugin/TodoReview.py:307-308),
    and Python's string order;
  - a stable insertion sort, as the reference for `sorted`;
  - `itertools.groupby` over runs of equal tag.
- `Navigation`: the cursor arithmetic of the "direction" command.
- `Paths`: `os.path.basename` and `os.path.dirname` as posixpath defines them, and the
  slice `f[-depth:]`.
- `Labels`:
  - `draw_file` (plugin/TodoReview.py:351-368), both as written (`LabelAsWritten`, which
    the report draws and measures) and as intended (`Label`);
  - the column width `largest` computed in `sort`.
- `Lines`: the group header, the item line `ItemText` of each variant
  (plugin/TodoReview.py:336-341) and `draw_header` as `HeaderLine`
  (plugin/TodoReview.py:312-327).
- `Report`:
  - the text, regions and findings that `draw_results` builds;
  - the `review_results` map keyed `"a,b"`;
  - the "open" command as `OpenTarget` (plugin/TodoReview.py:380-388);
  - the `ReportView` class, with `DrawResults`, `Render`, `Navigate` and `Open`.

## Model

| member | source | states |
|---|---|---|
| Text.JoinSplit | plugin/TodoReview.py:364-365 | joining the pieces of `s.split(c)` with `c` gives `s` back |
| Text.Split | plugin/TodoReview.py:364 | `split` gives at least one piece, and no piece contains the separator |
| Text.DigitsRoundTrip | plugin/TodoReview.py:348 | reading back the decimal digits of `n` gives `n`, so `str(n)` loses nothing |
| Text.DigitsInjective | plugin/TodoReview.py:348 | different numbers have different decimal texts |
| Text.Upper | plugin/TodoReview.py:333 | `upper()` keeps the length and leaves no lower-case ASCII letter |
| Text.ReplaceAbsent | plugin/TodoReview.py:39-41 | `replace` leaves a text without the pattern unchanged |
| Text.ReplaceConcat | plugin/TodoReview.py:325 | `replace` distributes over a concatenation when no occurrence straddles the seam |
| Patterns.ReplaceSlashIsMap | plugin/TodoReview.py:39 | replacing `/` by `[\\/]` maps each character on its own: every `/` becomes the class, every other character stays |
| Patterns.FnToRegexUnchanged | TodoReview.py:34-40 | a translation containing neither `/` nor `\Z` comes back unchanged |
| Patterns.FnToRegexDropsAnchor | plugin/TodoReview.py:36-42 | a trailing `\Z` is deleted: `fn_to_regex(t + "\Z")` equals `fn_to_regex(t)` |
| Patterns.MergeRegexes | plugin/TodoReview.py:45-55 | the result is `""` exactly when the variant has the empty case and there are no inputs, or one empty input; otherwise it is the alternation `(?:r1)\|…\|(?:rn)`; `Legacy` (TodoReview.py:43-52) has no empty case and gives `(?:)` for no inputs |
| Patterns.AlternationEmptyIff | plugin/TodoReview.py:53-55 | the alternation is `(?:)` if and only if there are no fragments or one empty fragment |
| Patterns.AlternationSnoc | plugin/TodoReview.py:53 | one more fragment appends `\|(?:x)` to the alternation |
| Patterns.MarkerAt | plugin/TodoReview.py:102 | a marker read at a position has a value in 0..99 |
| Patterns.FirstMarker | plugin/TodoReview.py:149-151 | the first marker from a position on has a value in 0..99 |
| Patterns.PriorityOf | plugin/TodoReview.py:149-153 | every priority is in 0..99 |
| Patterns.FirstMarkerIsLeftmost | plugin/TodoReview.py:149-151 | the first marker found is the leftmost position holding one |
| Patterns.FirstMarkerNoneIff | plugin/TodoReview.py:149-153 | no marker is found exactly when no position holds one |
| Patterns.PriorityIsFirstMarker | plugin/TodoReview.py:149-151 | the priority is the value of the leftmost `(d)` or `(dd)` in the note |
| Patterns.PriorityDefault | plugin/TodoReview.py:152-153 | a note without a marker has priority 50 |
| Patterns.PriorityExamples | plugin/TodoReview.py:102 | `(5)` gives 5, `(05)` gives 5, `(123)` gives 50, the first of two markers wins, and the empty note gives 50 |
| Configuration.GetIsOverlay | plugin/TodoReview.py:78-79 | `get` is a lookup in the user settings overlaid by the project settings |
| Configuration.ArgsHideViewProject | plugin/TodoReview.py:71-76 | non-empty command settings replace the view's project settings whatever those hold; without the key a lookup falls through to the user settings |
| Configuration.ReadDefaults | plugin/TodoReview.py:89-131 | `ReadConfig` reads every setting with the key and default of its `settings.get`; with nothing configured, every setting takes the default the code passes to `get`, including `resolve_symlinks` true, `render_maxspaces` 50, depth 1 and skips of 10 |
| Configuration.DictKeys | plugin/TodoReview.py:93-97 | the dict a JSON object loads into has each key once, in the order of its first entry (the order `patt_patterns.values()` follows) |
| Configuration.DictLookup | plugin/TodoReview.py:93-97 | the dict holds for each key the value of the object's last entry for it, and no value for an absent key |
| Configuration.DictEntries | plugin/TodoReview.py:93-97 | every entry of the dict is its key with that key's last value in the object |
| Configuration.PatternsRepeatedKey | plugin/TodoReview.py:93-97 | `{"TODO": "r1", "FIXME": "r2", "TODO": "r3"}` as `patterns` gives the patterns `["r3", "r2"]` |
| Configuration.TableWeightsLookup | plugin/TodoReview.py:307-308 | a tag has a weight exactly when some entry for it holds an int, a string, a boolean or null, and the weight is that of the last such entry; a string weighs as itself, `true`, `false` and `null` as "True", "False" and "None" (the text `str()` gives them) |
| System.ResolveSymlinksAddsRealpath | plugin/TodoReview.py:172-173 | with `resolve_symlinks` on, `realpath` is applied after the other two |
| Extraction.MatchFindingsIff | plugin/TodoReview.py:146-160 | a finding comes from a match exactly when it is one of its named groups with a value, empty values included, with that file, line, note and the note's priority |
| Extraction.MatchFindingsCount | plugin/TodoReview.py:146-148 | a match yields one finding per participating group |
| Extraction.EmptyNoteKept | plugin/TodoReview.py:147-148 | a group matching the empty string gives a finding with an empty note and priority 50 |
| Extraction.LineFindingsIff | plugin/TodoReview.py:145-160 | the findings of a line are exactly the findings of its matches |
| Extraction.LinesFindingsIff | plugin/TodoReview.py:144-160 | a finding comes from a file's lines exactly when it comes from line `i + 1` for some index `i`, so numbering starts at 1 |
| Extraction.LinesFindingsPrefix | TodoReview.py:124-141 | the findings of the first `k` lines are a prefix of the findings of all lines |
| Extraction.TwoMatchesOneLine | plugin/TodoReview.py:145 | two matches on one line give their findings in match order |
| Scan.OpenFileNames | plugin/TodoReview.py:106 | the open-file list holds exactly the non-empty file names of the open views |
| Scan.WalkedIff | plugin/TodoReview.py:112-116 | a walked path is added exactly when it is some file of some entry whose directory plus the separator is not folder-excluded |
| Scan.WalkedSound | plugin/TodoReview.py:112-116 | every added path comes from a kept directory entry |
| Scan.WalkedComplete | plugin/TodoReview.py:112-116 | every file of a kept directory entry is added |
| Scan.ExcludedParentKeepsChild | plugin/TodoReview.py:112-114 | an excluded directory adds none of its own files, while a subdirectory that is not excluded still adds all of its files |
| Scan.CollectedIff | plugin/TodoReview.py:110-116 | a collected path is some file of a kept entry of the walk below some resolved root |
| Scan.CollectedSound | plugin/TodoReview.py:110-116 | every collected path has such a root and entry |
| Scan.CollectedComplete | plugin/TodoReview.py:110-116 | every file of such an entry is collected |
| Scan.SourcePrefersOpenView | plugin/TodoReview.py:134-142 | a path open in an editor takes its lines from the first view with that name, not from disk |
| Scan.ViewLinesFirst | plugin/TodoReview.py:135-139 | the lines are those of the first view with the name |
| Scan.FailedFileAddsNothing | plugin/TodoReview.py:141-164 | in `Current`, a file that fails to read adds no findings, and the scan goes on with the next path |
| Scan.ScanFindingsFrom | plugin/TodoReview.py:154-160 | every finding names one of the scanned paths and a line of at least 1 |
| Scan.FileFindingsFrom | plugin/TodoReview.py:154-158 | a file's findings name that file and a line of at least 1 |
| Scan.AdmitsAdd | plugin/TodoReview.py:117-126 | one more candidate admits exactly its resolved path, when that path passes both exclude searches |
| Scan.FilterStep | plugin/TodoReview.py:117-126 | one candidate keeps the loop invariant, whether it is skipped or yielded |
| Scan.FilterSkip | plugin/TodoReview.py:119-124 | a candidate that was seen or is excluded keeps the loop invariant without output |
| Scan.FilterYield | plugin/TodoReview.py:125-126 | a new admitted path is yielded once and recorded as seen |
| Scan.Engine.constructor | plugin/TodoReview.py:83-106 | the matchers are the merged patterns and the `fn_to_regex`-translated exclude globs, case-insensitive unless `case_sensitive` is set; the file list is the open views' names |
| Scan.Engine.Files | plugin/TodoReview.py:108-126 | the walked files are added to `filepaths`; the output has no duplicates, holds exactly the admitted resolved candidates, and is no longer than the candidate set |
| Scan.Engine.AddWalked | plugin/TodoReview.py:112-116 | the files of the kept entries of one walk are added to `filepaths` |
| Scan.Engine.AddEntry | plugin/TodoReview.py:113-116 | the files of one entry are added unless its directory is excluded |
| Scan.Engine.Filter | plugin/TodoReview.py:117-126 | in any iteration order, the output has no duplicates, holds exactly the admitted paths and is at most as long as the candidates |
| Scan.Engine.ReadLines | plugin/TodoReview.py:134-142 | the lines of a path are those of its open view, else those the disk read gives; `Legacy` (TodoReview.py:115-125) chooses the same way |
| Scan.Engine.FindingsOfMatch | plugin/TodoReview.py:146-160 | the loop over a match's groups yields that match's findings |
| Scan.Engine.FindingsOfLine | plugin/TodoReview.py:145-160 | the loop over a line's matches yields that line's findings |
| Scan.Engine.FindingsOfLines | plugin/TodoReview.py:144-160 | the loop over the numbered lines yields the file's findings |
| Scan.Engine.FindingsOfFile | plugin/TodoReview.py:132-164 | a file yields the findings of its lines; failure rules follow the variant |
| Scan.Engine.Extract | plugin/TodoReview.py:128-164 | the counter rises by exactly the number of paths, failed files included, and the findings are those of the files in order; in `Legacy` (TodoReview.py:111-147) a failed lazy read keeps the findings of the lines read so far |
| Scan.Thread.constructor | plugin/TodoReview.py:179-184 | a new thread's counter is 0 |
| Scan.Thread.Increment | plugin/TodoReview.py:198-201 | the counter goes up by one |
| Scan.Thread.Run | plugin/TodoReview.py:190-192 | the callback count equals the number of yielded paths; those paths are distinct and admitted; the results are their findings |
| Scan.Scan | plugin/TodoReview.py:166-167 | on a fresh engine, the count is the number of paths; the paths are distinct and exactly the admitted ones; the results are their findings |
| Targets.FilesAmongIff | plugin/TodoReview.py:232-234 | a given path is added to `filepaths` exactly when it is a file; no more are added than given |
| Targets.Select | plugin/TodoReview.py:205-236 | the step-by-step selection gives the decision table `Plan` |
| Targets.PlanCurrentFile | TodoReview.py:192-198 | with `current_file`, a saved view gives `paths=[]` and `filepaths=[name]`; an unsaved one starts no scan |
| Targets.PlanOpenFilesOnly | plugin/TodoReview.py:226-236 | with `open_files_only`, `paths` is empty and `filepaths` is the open files if asked for |
| Targets.PlanDefaultsToFolders | plugin/TodoReview.py:228-230 | with no paths and no `include_paths`, the window folders are scanned |
| Targets.PlanGivenPaths | plugin/TodoReview.py:224-234 | the given paths, else `include_paths`, are scanned; those that are files are also added to `filepaths` |
| Targets.PlanNeedsWindow | plugin/TodoReview.py:208-209 | without a window no scan starts |
| Organize.StrLtIrreflexive | plugin/TodoReview.py:308 | no string is below itself |
| Organize.StrLtTransitive | plugin/TodoReview.py:308 | Python's string order is transitive |
| Organize.StrLtTotal | plugin/TodoReview.py:308 | of two different strings one is below the other |
| Organize.KeyLtIrreflexive | plugin/TodoReview.py:308 | the key order is irreflexive |
| Organize.KeyLtTransitive | plugin/TodoReview.py:308 | the key order is transitive |
| Organize.KeyLtTotal | plugin/TodoReview.py:308 | the key order is total on different keys |
| Organize.InsertPermutes | plugin/TodoReview.py:308 | inserting adds exactly that finding to the multiset |
| Organize.InsertSorted | plugin/TodoReview.py:308 | inserting into a sorted list keeps it sorted |
| Organize.SortSorted | plugin/TodoReview.py:308 | the sort is ordered by `(str(weight), priority)` |
| Organize.SortPermutes | plugin/TodoReview.py:308 | the sort is a permutation |
| Organize.InsertWithKey | plugin/TodoReview.py:308 | inserting keeps the order among findings with the same key |
| Organize.SortStable | plugin/TodoReview.py:308 | the sort is stable: findings with equal keys keep their input order |
| Organize.UnweightedKey | plugin/TodoReview.py:308 | an unweighted tag is keyed "No title" in `Current`, and by its own name in `Legacy` (TodoReview.py:253); ties go by priority |
| Organize.ExtendGroups | plugin/TodoReview.py:310 | adding a finding to the groups appends it to their concatenation |
| Organize.ExtendRuns | plugin/TodoReview.py:310 | adding a finding keeps the groups non-empty maximal runs of equal tag |
| Organize.GroupByFlattens | plugin/TodoReview.py:310 | the groups concatenate to the sorted list |
| Organize.GroupByRuns | plugin/TodoReview.py:310 | the groups are non-empty maximal equal-tag runs, with no group for no findings |
| Navigation.Move | plugin/TodoReview.py:396-420 | with `n` regions, a selection is stored exactly when `n > 0`, and it always lies in `[0, n)` (the same rules at plugin/sublime_text/TodoReview.py:353-377) |
| Navigation.MoveIsTarget | plugin/TodoReview.py:408-419 | the new selection is the start or stored selection plus the step: exactly -1 wraps to `n-1`, below -1 clamps to 0, `>= n` wraps to 0 |
| Navigation.MoveFromNothing | plugin/TodoReview.py:401-409 | with nothing stored, "down" selects 0 and "up" selects `n-1`; "up_skip" with a skip above 1 selects 0 |
| Navigation.MoveCycles | plugin/TodoReview.py:402-419 | "down" and "up" step by one and wrap at both ends |
| Navigation.SkipPastEndRestarts | plugin/TodoReview.py:405-418 | a forward skip past the end restarts at 0 |
| Navigation.SkipBeforeStart | plugin/TodoReview.py:406-415 | a backward skip before the start lands on `n-1` when the sum is exactly -1, else on 0 |
| Paths.TailStart | plugin/TodoReview.py:366 | the base name starts after the last slash |
| Paths.StripSlashes | plugin/TodoReview.py:364 | stripping only removes trailing slashes |
| Paths.BasenameTail | plugin/TodoReview.py:366-367 | the base name holds no slash and ends the path |
| Paths.DirnameBasename | plugin/TodoReview.py:364-366 | the path is its dirname, then slashes only, then its base name |
| Paths.SliceFromEnd | plugin/TodoReview.py:365 | `f[-depth:]` is a suffix: all of `f` for depth 0, else the last `min(depth, len f)` items; a negative depth drops items from the front |
| Labels.DecimalNoPercent | plugin/TodoReview.py:368 | `str(line)` holds no `%`, `:` or `,` |
| Labels.LocationRescans | plugin/TodoReview.py:368 | the template fills `%f`, then rescans the file text for `%l` |
| Labels.LocationPlain | plugin/TodoReview.py:368 | a text without `%l` gives `text + ":" + line` |
| Labels.LabelOfName | plugin/TodoReview.py:366-368 | a name without a slash is drawn with its `%l` replaced, while the intended label is `name:line` |
| Labels.LabelSplices | plugin/TodoReview.py:368 | a name holding `%l` once gets the line number spliced in |
| Labels.LabelMangled | plugin/TodoReview.py:368 | "a%lb.py" at line 3 is drawn "a3b.py:3" instead of "a%lb.py:3" |
| Labels.LabelRescans | plugin/TodoReview.py:354-368 | the drawn label is the shown file text with every `%l` replaced by the line, then `:` and the line; when the shown text holds no `%l` it is the intended label |
| Labels.LabelBasename | plugin/TodoReview.py:366-368 | without `render_include_folder` the intended label is `basename:line` and the drawn one is the base name with its `%l` replaced, then `:line` |
| Labels.LabelDepthZero | plugin/TodoReview.py:363-365 | depth 0 shows the whole folder path with `\` turned into `/`, then the base name, since `f[-0:]` is the whole list; the drawn label rescans that text for `%l` |
| Labels.LabelDepth | plugin/TodoReview.py:363-365 | a positive depth shows the last `min(depth, len)` folders, then the base name; the drawn label rescans that text for `%l` |
| Labels.LongestBounds | plugin/TodoReview.py:303-304 | no text is longer than the maximum |
| Labels.LongestAttained | plugin/TodoReview.py:303-304 | some text reaches the maximum |
| Labels.MaxLabelIsMax | plugin/TodoReview.py:301-304 | the maximum length of the drawn labels bounds every `len(draw_file(item))` and is reached by one; it is 0 for no findings |
| Labels.Width | plugin/TodoReview.py:301-306 | `largest` is `min(max len(draw_file(item)), render_maxspaces) + 6`, measured on the labels as written, with 0 as the maximum for no findings |
| Lines.FillTag | plugin/TodoReview.py:333 | the first replacement puts the tag in place of `%t` |
| Lines.FillCount | plugin/TodoReview.py:333 | the second puts the count in place of `%n` when the tag has no `n` |
| Lines.HeaderShows | plugin/TodoReview.py:333 | a group header shows the upper-cased tag and the group's size |
| Lines.NumberedAgree | TodoReview.py:298 | the `Legacy` template `"%i. %f"` gives the same numbered part as the f-string: the index, `. ` and the drawn label |
| Lines.PaddingSpaces | plugin/TodoReview.py:339 | the padding is spaces only, at least one |
| Lines.LegacyItemText | TodoReview.py:298-303 | the `Legacy` line rescans the numbered part for `%s` and `%n`, but not the padding or the note |
| Lines.ItemTextAgree | TodoReview.py:298-303 | both variants draw the same line unless the drawn label holds `%s` or `%n` |
| Lines.LegacyItemTextDiffers | TodoReview.py:298-303 | the file "%s.py" loses its `%s` in the `Legacy` line but not in the `Current` one |
| Lines.ItemTextEnds | plugin/TodoReview.py:336-341 | every item line ends with a space, the note and a newline |
| Lines.NoteColumn | plugin/TodoReview.py:336-341 | the note starts at column `largest`, or one past a longer numbered part |
| Lines.HeaderFormat | plugin/TodoReview.py:315-322 | the format in use is never empty, so the `len(forms) == 0` return cannot be taken; a non-empty setting is used as is |
| Lines.FillDate | plugin/TodoReview.py:325 | `%d` is replaced first |
| Lines.FillTime | plugin/TodoReview.py:325 | then `%t`, with the date rescanned |
| Lines.FillFileCount | plugin/TodoReview.py:325 | then `%c`, with the date and time rescanned |
| Lines.FillHeader | plugin/TodoReview.py:325 | a format with one `%d`, `%c` and `%t` in that order gets the date, count and time in their places |
| Lines.HeaderDefault | plugin/TodoReview.py:315-326 | an empty format setting gives the default line `// <date> - <count> files in <time> secs`, the same line as the default format |
| Report.DrawLines | plugin/TodoReview.py:342-346 | one region and one finding recorded per line |
| Report.DrawLinesText | plugin/TodoReview.py:342-346 | the lines are appended to the text, their findings to the findings, and the regions before are kept |
| Report.DrawLinesLaid | plugin/TodoReview.py:342-346 | lines that end with their notes keep the regions increasing, disjoint and each covering its note |
| Report.DrawLinesRegion | plugin/TodoReview.py:342-344 | the `j`-th region runs from the length before the insert to the length after |
| Report.DrawLinesAt | plugin/TodoReview.py:342-344 | the text of the `j`-th region is the `j`-th line |
| Report.ItemFormatEnds | plugin/TodoReview.py:336-341 | the report's item lines end with their notes |
| Report.DrawGroupShape | plugin/TodoReview.py:331-346 | a group adds its header and lines, its findings and one region per finding, and keeps the layout |
| Report.DrawGroupLine | plugin/TodoReview.py:335-344 | the `j`-th line of a group is numbered `j + 1` and has its own region |
| Report.DrawGroupsShape | plugin/TodoReview.py:329-346 | all groups append their texts and findings in order and keep the layout |
| Report.CommaSplit | plugin/TodoReview.py:348 | texts without a comma before a comma are told apart by it |
| Report.RegionKeyInjective | plugin/TodoReview.py:348 | different regions at non-negative offsets get different `"a,b"` keys |
| Report.DistinctKeys | plugin/TodoReview.py:348 | regions one after the other have different keys |
| Report.ReviewMapFinds | plugin/TodoReview.py:348 | over a laid-out report, each region's key maps to that region's finding, although later entries win in `dict` |
| Report.ReviewMapKeys | plugin/TodoReview.py:348 | every key of the map is some region's key |
| Report.ReviewMapOnePerRegion | plugin/TodoReview.py:342-348 | the map has one entry per region, holding that region's finding |
| Report.OpenPathRescans | plugin/TodoReview.py:385 | the open location rescans the path for `%l`; a path without `%l` is opened as intended |
| Report.OpenPathSplices | plugin/TodoReview.py:385 | a path holding `%l` once gets the line number spliced into its name |
| Report.OpenPathMangled | plugin/TodoReview.py:385 | "/p/50%lower.txt" line 3 opens "/p/503ower.txt:3" |
| Report.OpenSelected | plugin/TodoReview.py:380-385 | selecting region `k` (from the end when negative) opens its finding at the location the template builds as written; an index out of range opens nothing; with nothing selected the last finding opens |
| Report.InsertItems | plugin/TodoReview.py:335-346 | the inner loop of `draw_results` gives the text, regions and findings that `DrawLines` specifies |
| Report.ReportLaid | plugin/TodoReview.py:289-292 | the drawn report holds the header and each group's text; its findings are the sorted findings, one region each, laid out |
| Report.ReportOpens | plugin/TodoReview.py:380-384 | opening region `k` of a drawn report opens the `k`-th finding in sorted order, at the location as written, which is the intended one when the path holds no `%l` |
| Report.GroupLineText | plugin/TodoReview.py:335-341 | the `j`-th line of a group is that finding's item text, numbered `j + 1` |
| Report.ReportView.constructor | plugin/TodoReview.py:248-255 | a new results view is empty, with nothing selected and no findings recorded, and satisfies `Valid()` |
| Report.ReportView.DrawResults | plugin/TodoReview.py:329-349 | the view text gets the groups appended; the regions, the review map and the recorded findings are those drawn, the findings being the groups concatenated; with a format whose lines end with their notes the view satisfies `Valid()` (laid out, review map built from its regions and findings); the selection is unchanged |
| Report.ReportView.Render | plugin/TodoReview.py:273-296 | the view is erased, then holds the header and the sorted, grouped results, drawn with the labels as written at the width `largest` measured on them; afterwards the view satisfies `Valid()` and its recorded findings are the sorted findings, one per region; the selection is unchanged |
| Report.ReportView.Navigate | plugin/TodoReview.py:396-420 | with results, the selection `Move` gives is stored; nothing else changes, so `Valid()` holds afterwards exactly when it held before |
| Report.ReportView.Open | plugin/TodoReview.py:380-388 | on a view satisfying `Valid()`, a selected index `k` with `-n <= k < n` opens the location as written of the finding recorded for region `k` (counted from the end when negative), an index out of range opens nothing, and with nothing selected the last finding is opened; nothing changes |

## Left out

- The Sublime Text API is not modelled: windows, `status_message`, `message_dialog`,
  `open_file`, `focus_view`, `add_regions` flags, the "selection" region, `view.show`,
  syntax and view settings, `get_or_create_view`/`get_view`, `set_read_only`/`writable_view`,
  `review_args` and the `TodoReviewListener`. The view text is a string, the regions a
  sequence of pairs and open views a list of (file name, lines).
- Threading (`threading.Thread`, `RLock`): the counter is a field updated in sequence.
- Timing (`timeit`, `round`): the elapsed time enters `Render` as its text.
- `datetime.strftime` and the current date are a parameter function.
- `re`, `fnmatch.translate`, `os.walk`, `abspath`, `expanduser`, `realpath`, `isfile`,
  `os.path.join`, `open` and decoding stay abstract in `System.Host`.
- The "auto" folder depth of `draw_file` is an abstract function of the path. It stands
  for the window-folder prefix search and `os.path.relpath`.
- Python `set` iteration order is arbitrary. `Scan.Engine.Filter` picks each next
  candidate with `:|`, and its contract holds for every order.
- Settings of the wrong type are read as their defaults. The code would instead fail or
  behave in Python-specific ways, for example with a number as a pattern table.
- Configuration.TableWeightsLookup: float, list and object entries of `patterns_weight`
  give no weight in the model. Python keys them by `str()` as well (`1.5` sorts under
  "1.5", a list by its `repr`); floats are not modelled, and neither is `repr` of a list
  or an object. Such an entry also does not override an earlier entry for the same tag.
- Text.Upper: only ASCII letters are upper-cased. Python's full Unicode case mapping is
  not modelled.
- The "refresh" command re-runs the scan and erases the stored selection. It is left
  out because it only re-enters the modelled parts through the editor.
- In plugin/TodoReview.py, an "open" command without a window falls through to the
  later branches. The model has the window-less open branch only as `OpenTarget`.
- Scan.Engine.constructor: always succeeds. A pattern or exclude fragment that
  `re.compile` rejects raises `re.error` (plugin/TodoReview.py:101-104), and the command
  ends before any scan. The regex engine is abstract, so this case is not modelled.
- Scan.Engine.Extract: every read failure counts as caught. An `encoding` setting that
  `open` does not know raises `LookupError` (plugin/TodoReview.py:141). The `except` at
  line 161 does not catch it: the `finally` still bumps the counter, then the generator
  dies and the callback at line 192 never runs. The model does not capture this escape,
  so `Scan.Engine.Extract`, `Scan.Thread.Run` and `Scan.Scan` promise the full count and
  all findings.
- Scan.Thread.Run: it promises the callback for every scan, since the `LookupError`
  escape above is not modelled.
- Scan.Scan: the same gap as `Scan.Thread.Run`.
- Paths: `os.path` is taken to be posixpath. On Windows it is ntpath, which also splits
  at `\` and keeps a drive letter in the dirname, so the folder labels differ there:
  "C:\a\b.py" at depth 1 is drawn "a/b.py:n" on Windows but "/C:\a\b.py:n" here.
- Labels.LabelDepth: the kept folders are those of the posixpath dirname, as in the
  Paths line above.
- Labels.LabelDepthZero: the folder path is the posixpath dirname, as in the Paths line
  above.
- plugin/__init__.py only re-exports names and holds empty load hooks.
- plugin/sublime_text/TodoReview.py (lines 183-214) and the root TodoReview.py (lines
  184-214) do not check for a window in `TodoReviewCommand.run`. Without one they fail
  instead, at `window.views()` or `window.folders()` in `run` or at
  `self.view.window().views()` in `Engine.__init__` (line 87 and line 88). That also
  starts no scan, so `Targets.Plan` covers them.
- Lines.HeaderDefault: it requires the date and time texts to hold no `%`. A `%` in them
  could combine with the following text into a `%t` or `%c` that a later replacement
  rescans.
- Lines.FillHeader: it requires the same, plus a format with each placeholder once and
  in the order `%d`, `%c`, `%t`.
- Report.ReportView.DrawResults: it takes the line format as a parameter. `Render`
  passes the report's own format, `ItemFormat` at width `largest`.
- Report.InsertItems: the same parameterised line format.
- The `IndexError` and `KeyError` that the "open" command does not catch appear as
  `None` from `OpenTarget`.

## Findings

The report follows the code as written. It draws and measures `Labels.LabelAsWritten`
and opens `Report.OpenPathAsWritten`. The corrected definitions are `Labels.Label` and
`Report.OpenPath`. `Labels.LabelRescans` and `Report.OpenPathRescans` prove that each
agrees with the code whenever the name holds no `%l`.

| source | as written | input that shows it | evidently intended | confidence | as-written member | corrected member |
|---|---|---|---|---|---|---|
| plugin/TodoReview.py:368 | `"%f:%l".replace("%f", f).replace("%l", str(line))` rescans the file name for `%l` | the file "a%lb.py" at line 3 is labelled "a3b.py:3" | the label is the file text, a colon and the line: "a%lb.py:3" | not executed | Labels.LabelMangled | Labels.Label |
| plugin/TodoReview.py:385 | the "open" location is built with the same template, so the full path is rescanned for `%l` | the file "/p/50%lower.txt" at line 3 opens "/p/503ower.txt:3" | "/p/50%lower.txt:3" | not executed | Report.OpenPathMangled | Report.OpenPath |
