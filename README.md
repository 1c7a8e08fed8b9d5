# Formula dependency tracer — a Dafny model

This project models the tracing engine of the Formula Difference Analyzer's
dependency scanner (`dependency_scanner.py`). Starting from one workbook cell,
the scanner follows every cell the formula reads, across sheets and into other
workbook files, and prints an indented tree. It also keeps a report: a list of
every distinct cell it met, in the order it first met them.

The model covers four parts:

- **The walk.** `process_task_recursively`, with its nested
  `sort_dependencies_by_formula_order`, is modelled by the class
  `Traversal.Tracer` (fields `lines`, `seen`, `report`) and its methods
  `Process` and `ProcessChildren`. They are proved against a recursive
  specification:
  - `Traversal.Build` is the tree of tasks the walk visits. A task already on
    the current path is cut off as a circular reference.
  - `Traversal.Render` gives the printed lines.
  - `Traversal.Register` gives the report.
  - `Traversal.Scan` is the part of `run_scan_and_show` that starts a walk and
    then clears the cache.
- **The resolver.** `trace_dependency_vine` is `Resolver.Resolve`. For one
  task it returns the dependencies, whether the cell is a formula, the text to
  display and the cached value. Its pieces live in their own modules:
  - the multi-cell range summary (`Ranges`);
  - normalisation of the compiled model's input references into tasks
    (`References`, `Collect`);
  - rebuilding of external-link placeholders like `[1]Sheet!A1`
    (`Placeholders`);
  - the INDIRECT heuristic (`Indirect`).
- **The order of dependencies.** `Ordering.SortDependenciesByFormulaOrder` is
  a loop over the dependencies and the three search patterns. It is proved
  equal to a stable insertion sort on the first position at which the
  dependency occurs in the upper-cased formula.
- **The workbook cache.** `get_cached_workbook` and `clear_file_cache` are
  modelled by the class `Cache.WorkbookCache`: a map from the key
  `path_dataOnly_useResolved` to a loaded workbook.

**What comes from outside.** The loaders (`openpyxl.load_workbook`,
`load_resolved_workbook`, `formulas.ExcelModel().load`) and the SHA-256 digest
are given as values in `Workbook.Env`:

- per file path, the formula view, the value view, the resolved view and the
  compiled cells, each `None` when loading raises;
- `digest`, the eight-hex-digit prefix of the SHA-256.

A successful cache lookup returns exactly what the loader gives
(`Cache.WorkbookCache.Get`). So the resolver reads the loaded views through
`Workbook.LoadBook` directly.

**Proof strategy.** The walk is proved for any tracing function `trace` whose
dependencies stay inside a finite set `universe`. That is the meaning of
`Traversal.Closed`. Termination is measured by the number of tasks of the
universe not yet on the path. `Traversal.TracingClosed` shows that the real
resolver has this property: every dependency it reports is drawn from a finite
set of candidates (`Resolver.DepsAreCandidates`).

## Model

| member | source | states |
|---|---|---|
| Traversal.Tracer.Process | dependency_scanner.py:19-133 | Appends to the printed lines exactly the rendering of the walk tree from this task under the current path. Extends the report exactly by registering that tree. Keeps the invariant that the set of seen tasks equals the elements of the report list. |
| Traversal.Tracer.ProcessChildren | dependency_scanner.py:120-133 | Visits the ordered dependencies in order, each with the child prefix and the path extended by the parent. The lines and report become those of all child subtrees in sequence. |
| Traversal.Tracer.constructor | dependency_scanner.py:368-369 | The walk starts with no lines, an empty seen set and an empty report list. |
| Traversal.Scan | dependency_scanner.py:364-386 | A scan from the root, at working path `dirname(root.file)`, prints the rendering of the whole walk tree from an empty path and a root with no parent. Its report is that tree's registration. The cache is empty afterwards. The cache's loader must be the one the environment describes. |
| Traversal.Build | dependency_scanner.py:33-133 | The walk tree keeps the task. It is cut exactly when the task is already on the path. A visited node carries the resolver's answer and has one child per ordered dependency. Along every branch no task repeats: each visited task is off the path, and the path grows by that task for its children. |
| Traversal.RegisterGrows | dependency_scanner.py:41-44 | The report only grows: the old report is a prefix of the new one. A duplicate-free report stays duplicate-free. |
| Traversal.RenderShape | dependency_scanner.py:33-133 | The rendering of a tree is never empty. Its first line is the prefix followed by the pin. It has at least one line per visited task. |
| Traversal.HeaderEnds | dependency_scanner.py:48-59 | In every display mode the header ends with the cell address. Outside full-path mode it is a suffix of the `[file]sheet!cell` header. |
| Traversal.NodeLines | dependency_scanner.py:61-88 | A formula prints three lines, a characteristic (display text starting with `[`) two and a plain value one. |
| Traversal.NodeLinesText | dependency_scanner.py:61-88 | The first line starts with the prefix, the pin and the header. A formula's later lines start with the prefix. A plain value's line is the prefix, the pin, the header, `: ` and the cached value (quoted when it is a string), or the display text when there is no cached value. |
| Traversal.ChildPrefixEnds | dependency_scanner.py:122 | A child's prefix ends with the branch marker: `└─ ` for the last child, `├─ ` otherwise. |
| Traversal.MeasureDrops | dependency_scanner.py:35-39 | Descending into a dependency strictly shrinks the set of universe tasks not on the path, so the walk terminates. |
| Traversal.ChildrenInUniverse | dependency_scanner.py:118 | The ordered dependencies of a task stay within the closed universe. |
| Traversal.WalkReportStartsAtRoot | dependency_scanner.py:41-44 | The report of a scan is non-empty and starts with the root. |
| Traversal.WalkReportFacts | dependency_scanner.py:41-44 | The report has no duplicates. It holds exactly the tasks visited in preorder. Its order is the order of first encounter in the preorder walk. |
| Traversal.RegisterIsAddNew | dependency_scanner.py:41-44 | Registering a tree is adding its preorder sequence of tasks, each one only when not already present. |
| Traversal.RegisterKidsIsAddNew | dependency_scanner.py:41-44 | Registering a list of subtrees is adding their concatenated preorder sequence. |
| Traversal.AddNewAppend | dependency_scanner.py:41-44 | Adding two sequences one after the other is adding their concatenation. |
| Traversal.AddNewKeeps | dependency_scanner.py:41-44 | Adding never reorders or removes earlier report entries. |
| Traversal.AddNewElements | dependency_scanner.py:41-44 | After adding, the report's elements are the old elements plus the added ones. |
| Traversal.AddNewNoDup | dependency_scanner.py:41-44 | Adding keeps a duplicate-free report duplicate-free. |
| Traversal.AddNewFacts | dependency_scanner.py:41-44 | Combines the three facts: the prefix is kept, the elements are united, and no duplicates appear. |
| Traversal.AddNewOrder | dependency_scanner.py:41-44 | Entries added after the old report appear in the order of their first occurrence in the added sequence. |
| Traversal.FirstIndex | dependency_scanner.py:41-44 | Gives the position of the first occurrence of a task in a sequence. |
| Traversal.SimpleHeader | dependency_scanner.py:48-57 | In simple mode the root gets the detail header. For a child in the parent's file, the header is the bare cell exactly when the sheet names agree ignoring case. |
| Traversal.BracketedEnds | dependency_scanner.py:55-57 | The `[file]sheet!cell` header ends with `sheet!cell` and with the cell. |
| Traversal.FullPathEnds | dependency_scanner.py:58-59 | The full-path header (the file path, a vertical bar, then `sheet!cell`) ends with the cell. |
| Traversal.NodeLinesShape | dependency_scanner.py:61-88 | Every printed line of a node in the tree starts with the tree prefix for its branch history. |
| Traversal.TreePrefixHasNoPin | dependency_scanner.py:63 | Replacing the pin in a tree prefix changes nothing. |
| Traversal.BranchRewrite | dependency_scanner.py:122 | Rewriting a branch marker `├─ ` or `└─ ` gives the bar segment `│     ` or six spaces. |
| Traversal.ChildPrefixOfTree | dependency_scanner.py:120-122 | The child prefix of the prefix for a branch history is the prefix for that history extended by the child's is-last flag. |
| Traversal.BarsKept | dependency_scanner.py:122 | Bars left by earlier rewrites are untouched by later replacements of branch markers. |
| Traversal.TracingClosed | dependency_scanner.py:164-351 | The resolver at a fixed working path keeps all dependencies inside a finite set of candidate tasks. |
| Ordering.SortDependenciesByFormulaOrder | dependency_scanner.py:90-110 | The loop over dependencies and patterns returns exactly the formula-ordered dependencies. |
| Ordering.OrderDeps | dependency_scanner.py:90-118 | With no formula, an empty formula or no dependencies, the list is returned unchanged. The result always has the input's length. |
| Ordering.OrderDepsPermutation | dependency_scanner.py:109-110 | Ordering is a permutation of the dependencies. |
| Ordering.OrderDepsStable | dependency_scanner.py:103-110 | Each output is the input at a distinct original index. The output's keys (first match position) never decrease. Dependencies with equal keys keep their input order, so the sort is stable. |
| Ordering.MatchedFirst | dependency_scanner.py:103-110 | A dependency found in the formula never comes after one that is not found. |
| Ordering.MinFound | dependency_scanner.py:103-107 | The key is the least start of any pattern's first occurrence. It is `len(formula)+1` exactly when no pattern occurs. |
| Ordering.Key | dependency_scanner.py:96-107 | The key is at most `len(formula)+1`. It is below that bound exactly when the cell address itself occurs in the upper-cased formula, and then it is at most the address's first position. |
| Ordering.PatternsFindCell | dependency_scanner.py:96-107 | Each search pattern ends with the cell address, so the least pattern position is found exactly when the address is, and lies at or before the address's position. |
| Ordering.SuffixFound | dependency_scanner.py:96-107 | When a pattern ending in the address occurs, the address occurs no later than the pattern's end. |
| Ordering.StableSort | dependency_scanner.py:109 | The insertion sort keeps length and contents. |
| Ordering.StableSortOrdered | dependency_scanner.py:109 | Sorting numbered entries orders them by key, with ties by original position. |
| Ordering.InsertLastOrdered | dependency_scanner.py:109 | Inserting an entry after all entries with a key not larger keeps the order. |
| Ordering.SortedFromInput | dependency_scanner.py:109 | Every sorted entry is the input entry at its recorded position. |
| Ordering.StableSortDeps | dependency_scanner.py:109-110 | Sorting permutes the dependencies. |
| Ordering.StableSortIndices | dependency_scanner.py:109-110 | Sorting permutes the original positions. |
| Ordering.InsertLastDeps | dependency_scanner.py:109 | Insertion adds exactly one dependency to the multiset. |
| Ordering.InsertLastIndices | dependency_scanner.py:109 | Insertion adds exactly one position to the multiset. |
| Cache.WorkbookCache.Get | dependency_scanner.py:138-153 | Returns what the loader gives for `(path, data_only, use_resolved)`. A cached key changes nothing and loads nothing. An uncached key loads once, and stores the book under its key only when loading succeeds. |
| Cache.WorkbookCache.Clear | dependency_scanner.py:155-162 | Empties the cache. |
| Cache.WorkbookCache.constructor | dependency_scanner.py:136 | The cache starts empty. |
| Cache.WorkbookCache.StoredIffLoaded | dependency_scanner.py:140-153 | A key is stored exactly when its triple was loaded successfully. |
| Cache.GetTwice | dependency_scanner.py:138-153 | Asking twice gives the same answer and loads at most once. A cached request loads nothing. |
| Cache.CacheKeyInjective | dependency_scanner.py:140 | Different `(path, data_only, use_resolved)` triples never share a cache key. |
| Cache.CacheKey | dependency_scanner.py:140 | The key starts with the path followed by `_`. Its fifth-to-last character tells the two `use_resolved` values apart (`_True` against `False`). |
| Cache.FlagSuffixDecides | dependency_scanner.py:140 | A `_True`/`_False` suffix determines the flag and the rest of the key. |
| Resolver.ResolveWithoutTarget | dependency_scanner.py:164-180 | If the file, its compiled model, the sheet or the address cannot be found, the answer is a leaf: no dependencies, not a formula, no value. |
| Resolver.Resolve | dependency_scanner.py:164-351 | A file that cannot be loaded gives the load-failure leaf. Dependencies, the formula flag and a cached value occur only for a single cell that can be found. The flag is set only when that cell holds a formula. A cached value is never empty. |
| Resolver.ResolveRange | dependency_scanner.py:182-222 | A multi-cell target answers its range summary as a non-formula leaf whose display starts with `[`. |
| Resolver.ResolveSingle | dependency_scanner.py:224-348 | For a single cell: a malformed input reference gives an error leaf. Otherwise the answer is a formula exactly when the value is one, with the cached value. A plain cell reports its normalised inputs and quoted display. A formula reports them with at most one extra dependency in front. |
| Resolver.ResolveFormula | dependency_scanner.py:260-333 | For a formula, a parsed INDIRECT target goes in front of the inputs, a failed one appends its warning to the display, and otherwise the display is the chosen formula text. |
| Resolver.DisplayChoice | dependency_scanner.py:287-301 | A string in the resolved view is shown as is. In every other case (no resolved view, no such sheet in it, no such cell, a range, or a value that is not a string) the rebuilt formula is shown. Without a resolved view and without external links, or without external files, that is the formula as written. |
| Resolver.PlainDisplay | dependency_scanner.py:227-231 | A string value is shown between single quotes. Any other value is shown as its text. |
| Resolver.ActualSheet | dependency_scanner.py:175-177 | The real sheet title is a title of the workbook equal to the requested name ignoring case. |
| Resolver.ActualSheetAgain | dependency_scanner.py:175 | Looking up the real title again finds the same title. |
| Resolver.FirstSheetCaseBlind | dependency_scanner.py:175 | Names that agree ignoring case find the same sheet. |
| Resolver.FindCompiled | dependency_scanner.py:237-244 | The compiled cell is the one whose key matches the lower-cased full key. Failing that, it is the one with the simple key `'sheet'!cell`, and then exactly when such a cell exists. |
| Resolver.FirstKey | dependency_scanner.py:238 | Finds the first compiled key that passes the test, or establishes that none does. |
| Resolver.ActualValue | dependency_scanner.py:338-346 | A reported cached value is never empty. |
| Resolver.DepsAreCandidates | dependency_scanner.py:164-351 | Every dependency the resolver reports is a candidate drawn from the loadable files' cells. |
| Resolver.RangeTargetRaisesAsWritten | dependency_scanner.py:222 | As written, a range target gives three values, which the four-way unpacking rejects. The corrected resolver answers a characteristic leaf. |
| Ranges.SummarizeRange | dependency_scanner.py:182-221 | The range loop yields the range display. |
| Ranges.RangeDisplay | dependency_scanner.py:182-221 | The display is non-empty and starts with `[`. |
| Ranges.TallyRow | dependency_scanner.py:196-209 | Tallying a row in a loop gives the tally of its cells. |
| Ranges.CountCell | dependency_scanner.py:197-209 | One cell's step is the specified tally step. |
| Ranges.TallyCounts | dependency_scanner.py:195-205 | The tally's counts and sum are the per-kind counts and the sum of numbers over all cells. |
| Ranges.TallyHash | dependency_scanner.py:206-209 | The hashed text is every cell's text followed by two vertical bars, in row order, with `ArrayFormula` standing for an array formula and nothing for an empty cell. |
| Ranges.SummaryCategory | dependency_scanner.py:214-219 | The summary shows the sum exactly when some cell is a number, the error count exactly when none is a number and some is an error, `[Text]` exactly when only text remains, and nothing when all cells are other values. |
| Ranges.KindCountPositive | dependency_scanner.py:214-218 | A kind's count is positive exactly when some cell has that kind. |
| Ranges.KindsPartition | dependency_scanner.py:198-205 | Numbers, errors, texts and other cells partition the range. |
| Ranges.GroupedRoundTrip | dependency_scanner.py:215 | Removing the thousands separators recovers the digits. |
| Ranges.GroupedCommas | dependency_scanner.py:215 | In grouped digits a comma stands exactly at every fourth position counted from the end. |
| Ranges.SumText | dependency_scanner.py:215 | A whole sum of magnitude at most 2^53 is shown as its sign and its grouped digits, without `.00`. Removing the commas gives the plain decimal. Larger sums: see "## Left out". |
| Ranges.GroupedChars | dependency_scanner.py:215 | Grouped digits contain only digits and commas. |
| References.NormalizeRef | dependency_scanner.py:249-257 | A reference fails exactly when it is neither external nor holds a single `!`. A same-file reference stays in the task's file. |
| References.NormalizeExternal | dependency_scanner.py:251-254 | An external reference `'dir[file]sheet'!cell` becomes the task `(join(working path, file), sheet, cell)`. |
| References.NormalizeSameFile | dependency_scanner.py:255-257 | `sheet!cell`, quoted or not, becomes the task `(file, sheet, cell)` with the quotes stripped. |
| References.ParseExternalRef | dependency_scanner.py:248-252 | A parsed file name contains no `]`. |
| References.ParseReassembles | dependency_scanner.py:248-252 | A parsed external reference is exactly its four groups put back together. |
| References.ParsePrintedRef | dependency_scanner.py:248-252 | Printing four groups and parsing the result gives them back. |
| References.NormalizeAll | dependency_scanner.py:246-258 | Normalisation succeeds exactly when every reference does. It then gives one task per reference, in order. Otherwise it fails with the first failure. |
| References.NormalizeReferences | dependency_scanner.py:246-258 | The loop over the raw references computes the normalisation. |
| References.CollectReferences | dependency_scanner.py:249-258 | The loop collects step results up to the first failure. |
| Collect.CollectWith | dependency_scanner.py:249-258 | Collecting succeeds exactly when every step does. It then gives all results in order. Otherwise it fails with the first failing step's error. |
| Collect.FirstFailureDecides | dependency_scanner.py:249-258 | The first failing reference decides the error. |
| Placeholders.ExternalFiles | dependency_scanner.py:266 | The external file names are sorted, distinct and exactly the bracketed names of the inputs. |
| Placeholders.PathTable | dependency_scanner.py:268-271 | Placeholder `i` maps to the working path joined with the i-th sorted file name. |
| Placeholders.BracketName | dependency_scanner.py:265-266 | A bracketed name contains no `]`. |
| Placeholders.BracketNameOfPrinted | dependency_scanner.py:265-266 | The bracketed name of `'dir[file]rest` is `file` when `file` holds no bracket and `rest` no `[`. |
| Placeholders.BracketNames | dependency_scanner.py:266 | Collects exactly the bracketed names of the inputs. |
| Placeholders.PlaceholderAt | dependency_scanner.py:285 | A match starts at `[`, has a non-empty formula part without `]`, and is followed by an allowed character or the end. |
| Placeholders.PlaceholderOfSheetCell | dependency_scanner.py:285 | `[k]sheet!cell` matches with index `k` and part `sheet!cell`. |
| Placeholders.ReplaceSheetCell | dependency_scanner.py:279-281 | A known index with `sheet!cell` becomes `'dir\[file]sheet'!cell`. |
| Placeholders.ReconstructSheetCell | dependency_scanner.py:264-285 | A whole formula `[k]sheet!cell` is rebuilt to the full external reference. |
| Placeholders.Replacement | dependency_scanner.py:273-283 | An unknown index or an empty path leaves the match as written. For a known index the replacement's bracketed name is the base name of the mapped path. |
| Placeholders.ReplacedNamesFile | dependency_scanner.py:279-283 | Rewriting a placeholder, with or without `!` in its part, to `'dir\[file]...` keeps the path's base name as the bracketed name when neither holds a bracket. |
| Placeholders.Reconstruct | dependency_scanner.py:262-285 | With no external files, or when the formula holds no `[`, the formula is unchanged. |
| Placeholders.ReconstructWhole | dependency_scanner.py:285 | A formula that is one placeholder is replaced by that placeholder's replacement. |
| Indirect.IndirectEffect | dependency_scanner.py:303-333 | Without `INDIRECT(...)` or without a value view nothing changes. A failed evaluation of a piece becomes a warning. Without three literals and two values nothing changes. With a value view, three literals and two evaluated pieces, the outcome is `FromTarget` of the joined reference text: the parsed reference put in front, or the parse warning, or nothing for an empty text. A new dependency comes only from that case. |
| Indirect.IndirectOfConcat | dependency_scanner.py:303-329 | `INDIRECT("a"&"b"&X&"c"&Y)` evaluates `X` and `Y` in the value view and parses `a b X c Y` as the target. |
| Indirect.FromTarget | dependency_scanner.py:323-331 | An empty target changes nothing. A parsed target becomes the dependency. Anything else gives the parse warning. |
| Indirect.FromPrintedTarget | dependency_scanner.py:323-329 | A target `'dir\[file]sheet'!cell` becomes the task `(join(dir, file), sheet, cell)`. |
| Indirect.ParsePrintedTarget | dependency_scanner.py:324-328 | Parsing a printed target recovers its path, file, sheet and cell. |
| Indirect.ParseTargetAt | dependency_scanner.py:324-326 | Pins the target pattern's four groups at given positions. |
| Indirect.ParseTarget | dependency_scanner.py:324-326 | A parsed target's full path ends with `\[file]`, and its cell is non-empty and made of letters and digits. |
| Indirect.EvaluatePiece | dependency_scanner.py:315 | A piece is evaluated exactly when its stripped address names a single cell, giving that cell's text. Otherwise a known address that is a range fails with no value, and an unknown one with a bad address. |
| Indirect.ArgumentOfCall | dependency_scanner.py:303-308 | `=INDIRECT(arg)` contains the call and its argument is `arg`. |
| Indirect.CallIsContained | dependency_scanner.py:303-306 | A call found case-blind implies that `INDIRECT` occurs in the upper-cased formula. |
| Indirect.ArgumentFrom | dependency_scanner.py:306 | The captured argument never spans a line break. |
| Indirect.QuotedLiterals | dependency_scanner.py:309 | Each literal contains no quote and no line break. |
| Indirect.LiteralsOfConcat | dependency_scanner.py:309 | The literals of a concatenation are its three quoted parts. |
| Indirect.SplitPieces | dependency_scanner.py:310 | Pieces never contain `&`. |
| Indirect.NonEmpty | dependency_scanner.py:310 | Keeps exactly the non-empty pieces, in order. |
| Indirect.NonEmptyCounts | dependency_scanner.py:310 | Filtering keeps every non-empty piece as often as it occurs and drops all empty ones. |
| Indirect.NonEmptyAppend | dependency_scanner.py:310 | Filtering a concatenation is concatenating the filtered parts. |
| Indirect.PiecesOfConcat | dependency_scanner.py:310 | The cell pieces of a concatenation are its two unquoted parts. |
| Indirect.EvaluatePieces | dependency_scanner.py:315 | Evaluation succeeds exactly when every piece does, and gives one text per piece in order. Otherwise it fails with the first failure. |
| Indirect.EvaluateAll | dependency_scanner.py:312-317 | Without a value view there are no values. Otherwise there is one value per piece. |
| Indirect.TargetText | dependency_scanner.py:319-321 | A target is built only from three literals and two values. |
| Text.SplitOn | dependency_scanner.py:256 | Splitting gives one part more than separators, without the separator, and joining them gives the input back. |
| Text.SplitJoin | dependency_scanner.py:256 | Splitting the join of separator-free parts gives the parts back. |
| Text.Strip | dependency_scanner.py:257 | Stripping keeps only characters of the input. |
| Text.StripSurrounded | dependency_scanner.py:257 | Stripping removes the surrounding characters and leaves the core. |
| Text.FindFrom | dependency_scanner.py:105 | The search finds the first occurrence at or after the start. |
| Text.ReplaceAbsent | dependency_scanner.py:122 | Replacing an absent pattern changes nothing. |
| Text.NatToString | dependency_scanner.py:274 | A number's decimal text is non-empty digits with no leading zero. |
| Text.DigitsValueOfNatToString | dependency_scanner.py:274 | Reading a number's decimal text gives the number back. |
| Text.SortedDistinct | dependency_scanner.py:266 | Gives the strictly sorted list of a collection's distinct elements. |
| Text.InsertSorted | dependency_scanner.py:266 | Insertion keeps the list strictly sorted and adds exactly the element. |
| Text.LexTotal | dependency_scanner.py:266 | Distinct strings are ordered one way or the other. |
| Workbook.SheetIgnoringCase | dependency_scanner.py:175 | Finds a sheet whose title agrees ignoring case, or establishes that none does. |
| Workbook.SheetNamed | dependency_scanner.py:179 | Finds the sheet with exactly this title, or establishes that none has it. |
| Workbook.FirstSheetFrom | dependency_scanner.py:175 | Finds the first sheet that matches the name, with no earlier match. |
| Paths.BasenameOfJoin | dependency_scanner.py:281 | The base name of `join(a, b)` is `b`. |
| Paths.DirnameOfJoin | dependency_scanner.py:281 | The directory of `join(a, b)` is `a`. |
| Paths.LastSep | dependency_scanner.py:281 | Finds the last path separator. |
| Paths.Dirname | dependency_scanner.py:281 | The directory name keeps the whole drive and root and is a leading part of the path. |
| Paths.Join | dependency_scanner.py:281 | The join starts with `a` and ends with `b`. |
| Paths.SplitRootOfJoin | dependency_scanner.py:281 | Joining a separator-free name onto a directory that is not a share path keeps its drive and root. |
| Paths.DirnameAtDriveRoot | dependency_scanner.py:281 | The directory of `X:\name` is `X:\`: the root separator is kept. |

## Left out

- The tkinter window, the COM link to a running Excel, the JSON export and everything else after line 386 are outside the tracing engine.
- Loading workbooks and compiling the formula model are done by libraries. Their results are given per file as `Workbook.FileViews`, with `None` for a load that raises.
- SHA-256 is not computed. `Env.digest` stands for the first eight hex digits of the hash of the UTF-8 text.
- Cell values are empty, whole numbers, strings or array formulas. Floating-point and boolean values, dates and other types are not modelled, so a range sum is always whole. Only the `.00` removal of whole sums is modelled.
- `str()` of an array formula is modelled as its formula text. The library's object printout is not modelled.
- `.lower()` and `.upper()` are modelled for ASCII letters only. Full Unicode case mapping is not modelled. Likewise the regular expressions' `\d` and `re.IGNORECASE` match only ASCII digits and ASCII case variants in the model, while Python's also match other Unicode digits and case variants.
- The search patterns in the ordering are compared, unchanged, against the upper-cased formula, as in the source. So a lower-case sheet name never matches.
- Closing workbooks (lines 157-161 and 336) is not modelled. Closing has no effect on the lookups the model makes, and a closed cached book is used again as it stands.
- The regular expressions are modelled only for the shapes they are applied to here: compiled input references, placeholders, `INDIRECT(...)` arguments and targets.
- The texts of library exceptions are modelled as the `Fault` cases of each failure, not as the libraries' messages.
- Redirecting standard output into a buffer, and the later insertion of empty lines (lines 388-394), are not modelled. The walk's lines are a sequence of strings.
- The registry parameters may be `None` (lines 41-44). Only the scan's call, which passes both, is modelled.
- The warning that `get_cached_workbook` prints when a load fails (line 150) is not modelled. During a scan that warning lands among the walk's captured lines. In the model the load simply gives `None`.
- Paths.Dirname: forward slashes as separators and the `\\?\UNC\` prefix are not modelled; paths use backslashes only.
- Paths.Join: only a `b` without drive or root is modelled. The joined names are the file names found between `[` and `]`. A name carrying its own drive or root, which `ntpath.join` would put in place of `a`, is appended like any other.
- Indirect.ParsePrintedTarget: stated only for directories that are not share paths, have a name after their drive and root, and do not end in a separator. For a bare drive such as `C:` the directory read back is `C:\`, as `Paths.DirnameAtDriveRoot` shows. The same holds for `Indirect.FromPrintedTarget` and `Indirect.DirnameOfBracketed`.
- Ranges.SumText: sums of magnitude above 2^53 are exact in the model, but the source's `,.2f` format converts the int to a float first. So it prints the nearest float's digits (9007199254740993 prints as `9,007,199,254,740,992`), and a sum beyond the float range raises `OverflowError`, which line 350 turns into an error leaf.
- A whole-column or whole-row address such as `A:A` is modelled as an address the sheet does not have. There the library returns a flat tuple of cells, so `len(cell_obj[0])` at line 184 fails and line 350 turns that into an error leaf. The model gives the error leaf of an address the sheet rejects (`Workbook.Fault.BadAddress`); only the message differs.
- `Resolver.Resolve` reads the loaded views directly rather than through the cache object. `Cache.WorkbookCache.Get` is proved to return exactly what the loader gives, so the answers agree.

## Findings

| source | as written | input that shows it | evidently intended | confidence | as-written member | corrected member |
|---|---|---|---|---|---|---|
| dependency_scanner.py:222 | The range branch returns three values, but line 46 unpacks four. The resulting error is raised outside the resolver's own `try`, so it stops the scan. | A task whose cell address is a range, such as `A1:B1` on a sheet holding two numbers | A characteristic leaf: no dependencies, not a formula, the range summary as display, and no value | not executed | Resolver.RangeTargetRaisesAsWritten | Resolver.ResolveRange |
