/**
 * The per-cell resolver (`trace_dependency_vine`): given the loader results
 * of every file, it answers for one task the list of tasks the cell depends
 * on, whether the cell holds a formula, the text to display and the cell's
 * cached value. Every exception the resolver catches becomes a leaf with no
 * dependencies.
 */
module Resolver {
  import opened Wrappers
  import opened Text
  import opened Paths
  import opened Workbook
  import opened References
  import opened Placeholders
  import opened Indirect
  import opened Ranges

  /** The four values the resolver returns. */
  datatype Traced = Traced(deps: seq<Task>, isFormula: bool, content: string, actual: Option<Value>)

  /** A result with no dependencies that is not a formula. */
  function Leaf(content: string): Traced {
    Traced([], false, content, None)
  }

  function LoadFailure(path: string): string {
    "❌ Could not load file: " + path
  }

  /** The leaf for an exception caught by the outer handler. */
  function ErrorLeaf(f: Fault): Traced {
    Leaf("❌ Error during analysis: " + FaultText(f))
  }

  // ----- classification and display (lines 224-233) -----

  /** An array formula, or a string starting with `=`. */
  predicate IsFormula(v: Value) {
    v.ArrayF? || (v.Str? && |v.s| > 0 && v.s[0] == '=')
  }

  /** How a value is shown: a string in single quotes, anything else as
    * `str` gives it. */
  function PlainDisplay(v: Value): (r: string)
    ensures v.Str? ==> |r| == |v.s| + 2 && r[0] == '\'' && r[|r| - 1] == '\'' && r[1..|r| - 1] == v.s
    ensures !v.Str? ==> r == ValueText(v)
  {
    if v.Str? then "'" + v.s + "'" else ValueText(v)
  }

  /** The formula text: an array formula's text, or the string itself. */
  function FormulaText(v: Value): string
    requires IsFormula(v)
  {
    if v.ArrayF? then v.text else v.s
  }

  // ----- the real sheet title (lines 175-177) -----

  /** The title of the first sheet whose title equals `name` ignoring case;
    * an empty title counts as not found, as `if not actual_sheet_name` does. */
  function ActualSheet(b: Book, name: string): (r: Option<string>)
    ensures r.Some? ==> r.value != "" && Lower(r.value) == Lower(name)
    ensures r.Some? ==> exists s :: s in b.sheets && s.name == r.value
  {
    match SheetIgnoringCase(b, name)
    case None => None
    case Some(s) => if s.name == "" then None else Some(s.name)
  }

  /** Searching ignoring case finds the same sheet for names that differ
    * only in case. */
  lemma {:induction false} FirstSheetCaseBlind(sheets: seq<Sheet>, n1: string, n2: string, i: nat)
    requires i <= |sheets| && Lower(n1) == Lower(n2)
    ensures FirstSheetFrom(sheets, n1, true, i) == FirstSheetFrom(sheets, n2, true, i)
    decreases |sheets| - i
  {
    if i < |sheets| {
      FirstSheetCaseBlind(sheets, n1, n2, i + 1);
    }
  }

  /** Looking up the real title again finds the same title. */
  lemma ActualSheetAgain(b: Book, name: string)
    requires ActualSheet(b, name).Some?
    ensures ActualSheet(b, ActualSheet(b, name).value) == ActualSheet(b, name)
  {
    FirstSheetCaseBlind(b.sheets, name, ActualSheet(b, name).value, 0);
  }

  // ----- the compiled cell (lines 237-244) -----

  /** `'[basename]sheet'!cell` in lower case. */
  function LowerKey(file: string, sheetName: string, address: string): string {
    "'[" + Lower(Basename(file)) + "]" + Lower(sheetName) + "'!" + Lower(address)
  }

  /** `'sheet'!cell`. */
  function SimpleKey(sheetName: string, address: string): string {
    "'" + sheetName + "'!" + address
  }

  /** The first compiled cell from `i` on whose key passes `ok`. */
  function FirstKey(cells: seq<CompiledCell>, ok: string -> bool, i: nat): (r: Option<nat>)
    requires i <= |cells|
    ensures r.Some? ==> i <= r.value < |cells| && ok(cells[r.value].key)
    ensures r.None? ==> forall j :: i <= j < |cells| ==> !ok(cells[j].key)
    decreases |cells| - i
  {
    if i == |cells| then None
    else if ok(cells[i].key) then Some(i)
    else FirstKey(cells, ok, i + 1)
  }

  function KeyIgnoringCase(lowerKey: string): string -> bool {
    k => Lower(k) == lowerKey
  }

  function KeyExactly(key: string): string -> bool {
    k => k == key
  }

  /** The compiled cell of the target: the first key equal to the lower-case
    * key ignoring case, or else the exact simple key. */
  function FindCompiled(cells: seq<CompiledCell>, file: string, sheetName: string, address: string): (r: Option<CompiledCell>)
    ensures r.Some? ==> r.value in cells
    ensures (exists j :: 0 <= j < |cells| && Lower(cells[j].key) == LowerKey(file, sheetName, address)) ==>
              r.Some? && Lower(r.value.key) == LowerKey(file, sheetName, address)
    ensures (forall j :: 0 <= j < |cells| ==> Lower(cells[j].key) != LowerKey(file, sheetName, address)) ==>
              && (r.Some? <==> exists j :: 0 <= j < |cells| && cells[j].key == SimpleKey(sheetName, address))
              && (r.Some? ==> r.value.key == SimpleKey(sheetName, address))
  {
    match FirstKey(cells, KeyIgnoringCase(LowerKey(file, sheetName, address)), 0)
    case Some(i) => Some(cells[i])
    case None =>
      match FirstKey(cells, KeyExactly(SimpleKey(sheetName, address)), 0)
      case Some(i) => Some(cells[i])
      case None => None
  }

  /** The raw input references of the compiled cell, if there is one. */
  function InputsOf(c: Option<CompiledCell>): seq<string> {
    if c.Some? then c.value.inputs else []
  }

  // ----- the formula text and its display (lines 260-301) -----

  /** The formula with external placeholders rebuilt, when the workbook has
    * external links and the cell was compiled; the raw formula otherwise. */
  function Reconstructed(b: Book, c: Option<CompiledCell>, wp: string, raw: string): (r: string)
    ensures !b.hasExternalLinks || c.None? ==> r == raw
  {
    if b.hasExternalLinks && c.Some? then Reconstruct(raw, PathTable(wp, c.value.inputs)) else raw
  }

  /** The resolved view's string for the cell when it has one; the
    * reconstructed formula otherwise (including every raised lookup). */
  function ResolvedDisplay(env: Env, file: string, sheetName: string, address: string, reconstructed: string): string {
    match LoadBook(env, file, false, true)
    case None => reconstructed
    case Some(rb) =>
      match SheetNamed(rb, sheetName)
      case None => reconstructed
      case Some(rws) =>
        match CellAt(rws, address)
        case Some(Single(Str(s))) => s
        case _ => reconstructed
  }

  /** The cell's value in the cached-values view, None when it is empty or
    * cannot be read. */
  function ActualValue(env: Env, file: string, sheetName: string, address: string): (r: Option<Value>)
    ensures r.Some? ==> !r.value.Empty?
  {
    match LoadBook(env, file, true, false)
    case None => None
    case Some(vb) =>
      match SheetNamed(vb, sheetName)
      case None => None
      case Some(vws) =>
        match CellAt(vws, address)
        case Some(Single(v)) => ScalarOf(v)
        case _ => None
  }

  /** The INDIRECT outcome applied: a dependency goes in front, a warning at
    * the end of the display. */
  function Apply(deps: seq<Task>, display: string, e: Effect): (seq<Task>, string) {
    match e
    case Unchanged => (deps, display)
    case Prepend(d) => ([d] + deps, display)
    case Warn(note) => (deps, display + note)
  }

  // ----- the resolver -----

  /** `trace_dependency_vine(task, working_path)`: a file that does not load
    * is reported as such; only a single cell that can be found has
    * dependencies, is a formula exactly as its value is, or has a value. */
  function Resolve(env: Env, wp: string, task: Task): (r: Traced)
    ensures LoadBook(env, task.file, false, false).None? ==> r == Leaf(LoadFailure(task.file))
    ensures r.deps != [] || r.isFormula || r.actual.Some? ==>
      TargetOf(env, task).Some? && TargetOf(env, task).value.Single?
    ensures r.isFormula ==> IsFormula(TargetOf(env, task).value.v)
    ensures r.actual.Some? ==> !r.actual.value.Empty?
  {
    match LoadBook(env, task.file, false, false)
    case None => Leaf(LoadFailure(task.file))
    case Some(b) =>
      match LoadCompiled(env, task.file)
      case None => ErrorLeaf(ModelLoadFailed(task.file))
      case Some(model) =>
        match ActualSheet(b, task.sheet)
        case None => ErrorLeaf(NoSuchSheet(task.sheet))
        case Some(name) => ResolveIn(env, wp, task.file, b, model, name, task.cell)
  }

  /** The resolver once the sheet's real title is known. */
  function ResolveIn(env: Env, wp: string, file: string, b: Book, model: seq<CompiledCell>,
                     name: string, address: string): Traced {
    match SheetNamed(b, name)
    case None => ErrorLeaf(MissingSheetKey(name))
    case Some(ws) =>
      match CellAt(ws, address)
      case None => ErrorLeaf(BadAddress(address))
      case Some(Grid(rows)) => Leaf(RangeDisplay(rows, env.digest))
      case Some(Single(v)) => ResolveValue(env, wp, file, b, model, name, address, v)
  }

  /** The resolver for a single cell holding `v`. */
  function ResolveValue(env: Env, wp: string, file: string, b: Book, model: seq<CompiledCell>,
                        name: string, address: string, v: Value): Traced {
    var compiled := FindCompiled(model, file, name, address);
    match NormalizeAll(wp, file, InputsOf(compiled))
    case Err(f) => ErrorLeaf(f)
    case Ok(deps) =>
      var actual := ActualValue(env, file, name, address);
      if !IsFormula(v) then Traced(deps, false, PlainDisplay(v), actual)
      else
        var raw := FormulaText(v);
        var display := ResolvedDisplay(env, file, name, address, Reconstructed(b, compiled, wp, raw));
        var applied := Apply(deps, display, IndirectEffect(env, file, name, raw));
        Traced(applied.0, true, applied.1, actual)
  }

  // ----- what the resolver promises -----

  /** The target `ws[address]` of a task, when the file, its compiled model,
    * the sheet and the address can all be found. */
  function TargetOf(env: Env, task: Task): Option<Target> {
    match LoadBook(env, task.file, false, false)
    case None => None
    case Some(b) =>
      if LoadCompiled(env, task.file).None? then None
      else match ActualSheet(b, task.sheet)
        case None => None
        case Some(name) =>
          match SheetNamed(b, name)
          case None => None
          case Some(ws) => CellAt(ws, task.cell)
  }

  /** A task whose target cannot be found is a leaf: no dependencies, not a
    * formula, no value. */
  lemma ResolveWithoutTarget(env: Env, wp: string, task: Task)
    requires TargetOf(env, task).None?
    ensures var r := Resolve(env, wp, task);
      r.deps == [] && !r.isFormula && r.actual.None?
  {
  }

  /** A multi-cell target is a leaf whose display starts with its size, so
    * the walk prints it as a characteristic line. */
  lemma ResolveRange(env: Env, wp: string, task: Task, rows: seq<seq<Value>>)
    requires TargetOf(env, task) == Some(Grid(rows))
    ensures Resolve(env, wp, task) == Leaf(RangeDisplay(rows, env.digest))
    ensures var r := Resolve(env, wp, task);
      !r.isFormula && |r.content| > 0 && r.content[0] == '['
  {
  }

  /** The dependencies a single cell reports before INDIRECT is considered:
    * its compiled inputs, normalised in order. */
  function InputTasks(env: Env, wp: string, task: Task): Result<seq<Task>, Fault>
    requires LoadBook(env, task.file, false, false).Some? && LoadCompiled(env, task.file).Some?
    requires ActualSheet(LoadBook(env, task.file, false, false).value, task.sheet).Some?
  {
    var name := ActualSheet(LoadBook(env, task.file, false, false).value, task.sheet).value;
    NormalizeAll(wp, task.file, InputsOf(FindCompiled(LoadCompiled(env, task.file).value, task.file, name, task.cell)))
  }

  /** A single cell is a formula exactly when its value is; a malformed input
    * reference turns it into an error leaf; otherwise it reports its
    * normalised inputs (a plain cell) or them with at most one INDIRECT
    * dependency in front (a formula), and its cached value. */
  lemma ResolveSingle(env: Env, wp: string, task: Task, v: Value)
    requires TargetOf(env, task) == Some(Single(v))
    ensures LoadBook(env, task.file, false, false).Some? && LoadCompiled(env, task.file).Some?
    ensures ActualSheet(LoadBook(env, task.file, false, false).value, task.sheet).Some?
    ensures var r := Resolve(env, wp, task);
      var name := ActualSheet(LoadBook(env, task.file, false, false).value, task.sheet).value;
      var inputs := InputTasks(env, wp, task);
      && (inputs.Err? ==> r == ErrorLeaf(inputs.error))
      && (inputs.Ok? ==> r.isFormula == IsFormula(v) && r.actual == ActualValue(env, task.file, name, task.cell))
      && (inputs.Ok? && !IsFormula(v) ==> r.deps == inputs.value && r.content == PlainDisplay(v))
      && (inputs.Ok? && IsFormula(v) ==>
            r.deps == inputs.value || (|r.deps| == |inputs.value| + 1 && r.deps[1..] == inputs.value))
  {
  }

  /** For a formula, INDIRECT decides the rest: a parsed target goes in front
    * of the other dependencies, a failure appends its warning to the display,
    * and otherwise the display is the resolved text or the rebuilt formula. */
  lemma ResolveFormula(env: Env, wp: string, task: Task, v: Value)
    requires TargetOf(env, task) == Some(Single(v)) && IsFormula(v)
    requires LoadBook(env, task.file, false, false).Some? && LoadCompiled(env, task.file).Some?
    requires ActualSheet(LoadBook(env, task.file, false, false).value, task.sheet).Some?
    requires InputTasks(env, wp, task).Ok?
    ensures var r := Resolve(env, wp, task);
      var b := LoadBook(env, task.file, false, false).value;
      var name := ActualSheet(b, task.sheet).value;
      var compiled := FindCompiled(LoadCompiled(env, task.file).value, task.file, name, task.cell);
      var shown := ResolvedDisplay(env, task.file, name, task.cell, Reconstructed(b, compiled, wp, FormulaText(v)));
      var e := IndirectEffect(env, task.file, name, FormulaText(v));
      && (e.Prepend? ==> r.deps == [e.dep] + InputTasks(env, wp, task).value && r.content == shown)
      && (e.Warn? ==> r.deps == InputTasks(env, wp, task).value && r.content == shown + e.note)
      && (e.Unchanged? ==> r.deps == InputTasks(env, wp, task).value && r.content == shown)
  {
  }

  /** The display of a formula is the resolved view's string for the cell
    * when there is one; otherwise the formula with placeholders rebuilt, and
    * without external links or a compiled cell the formula as written. */
  lemma DisplayChoice(env: Env, file: string, name: string, address: string, b: Book,
                      c: Option<CompiledCell>, wp: string, raw: string)
    ensures var shown := ResolvedDisplay(env, file, name, address, Reconstructed(b, c, wp, raw));
      var rb := LoadBook(env, file, false, true);
      && (rb.Some? && SheetNamed(rb.value, name).Some? && CellAt(SheetNamed(rb.value, name).value, address).Some?
          && CellAt(SheetNamed(rb.value, name).value, address).value.Single?
          && CellAt(SheetNamed(rb.value, name).value, address).value.v.Str? ==>
            shown == CellAt(SheetNamed(rb.value, name).value, address).value.v.s)
      && (rb.None? && (!b.hasExternalLinks || c.None?) ==> shown == raw)
      && (rb.None? && c.Some? && PathTable(wp, c.value.inputs) == [] ==> shown == raw)
      && (!(rb.Some? && SheetNamed(rb.value, name).Some? && CellAt(SheetNamed(rb.value, name).value, address).Some?
            && CellAt(SheetNamed(rb.value, name).value, address).value.Single?
            && CellAt(SheetNamed(rb.value, name).value, address).value.v.Str?) ==>
            shown == Reconstructed(b, c, wp, raw))
  {
  }

  // ----- every dependency is drawn from a finite set -----

  /** The sheets of a file's formula view. */
  function SheetsOf(env: Env, file: string): seq<Sheet> {
    match LoadBook(env, file, false, false)
    case Some(b) => b.sheets
    case None => []
  }

  /** Every task that a cell of some loadable file depends on. */
  function Candidates(env: Env, wp: string): set<Task> {
    set f, s, c, d | f in env.files && s in SheetsOf(env, f) && c in s.cells
                     && d in Resolve(env, wp, Task(f, s.name, c)).deps :: d
  }

  /** The resolver only ever answers candidates: a task with dependencies
    * names a cell of a sheet of a loadable file, and looking it up under the
    * sheet's real title gives the same answer. */
  lemma DepsAreCandidates(env: Env, wp: string, task: Task)
    ensures forall d :: d in Resolve(env, wp, task).deps ==> d in Candidates(env, wp)
  {
    var r := Resolve(env, wp, task);
    if r.deps != [] {
      if TargetOf(env, task).None? {
        ResolveWithoutTarget(env, wp, task);
      }
      var b := LoadBook(env, task.file, false, false).value;
      var name := ActualSheet(b, task.sheet).value;
      var ws := SheetNamed(b, name).value;
      assert task.cell in ws.cells;
      ActualSheetAgain(b, task.sheet);
      assert Resolve(env, wp, Task(task.file, ws.name, task.cell)) == r;
      assert task.file in env.files;
      forall d | d in r.deps ensures d in Candidates(env, wp) {
        assert ws in SheetsOf(env, task.file);
      }
    }
  }

  // ----- the range branch as written (line 222) -----

  /** What the resolver returns as written: four values, or the three that
    * the range branch returns. */
  datatype Returned = Four(traced: Traced) | Three(deps: seq<Task>, isFormula: bool, content: string)

  /** The resolver as written: the range branch returns three values. */
  function ResolveAsWritten(env: Env, wp: string, task: Task): Returned {
    match TargetOf(env, task)
    case Some(Grid(rows)) => Three([], false, RangeDisplay(rows, env.digest))
    case _ => Four(Resolve(env, wp, task))
  }

  /** `dependencies, is_formula, content, actual_value = ...`: unpacking
    * anything but four values raises. */
  function Unpack(r: Returned): Option<Traced> {
    match r
    case Four(t) => Some(t)
    case Three(_, _, _) => None
  }

  /** A file whose only sheet `S` holds a two-cell range at `A1:B1`. */
  function RangeBook(): Env {
    Env(map["C:\\w\\book.xlsx" := FileViews(
          Some(Book([Sheet("S", map["A1:B1" := Grid([[Num(1), Num(2)]])])], false)),
          None, None, Some([]))],
        s => "00000000")
  }

  /** As written, tracing a range target makes the caller's unpacking raise,
    * which nothing in the walk catches; the corrected resolver answers a
    * characteristic leaf. */
  lemma RangeTargetRaisesAsWritten()
    ensures var task := Task("C:\\w\\book.xlsx", "S", "A1:B1");
      && Unpack(ResolveAsWritten(RangeBook(), "C:\\w", task)).None?
      && Resolve(RangeBook(), "C:\\w", task).deps == []
      && Resolve(RangeBook(), "C:\\w", task).content[0] == '['
  {
    var task := Task("C:\\w\\book.xlsx", "S", "A1:B1");
    var b := Book([Sheet("S", map["A1:B1" := Grid([[Num(1), Num(2)]])])], false);
    assert Lower("S") == Lower("S");
    assert FirstSheetFrom(b.sheets, "S", true, 0) == Some(0);
    assert FirstSheetFrom(b.sheets, "S", false, 0) == Some(0);
    assert TargetOf(RangeBook(), task) == Some(Grid([[Num(1), Num(2)]]));
    ResolveRange(RangeBook(), "C:\\w", task, [[Num(1), Num(2)]]);
  }
}
