/**
 * What the scanner reads: the three loaded views of a workbook file (formula
 * text, cached values, externally resolved text), the compiled formula model
 * of the file, and the cell identities it traces. Loading itself belongs to
 * libraries outside the scanner; here a file's loader results are given as
 * values, with `None` for a load that raised.
 */
module Workbook {
  import opened Wrappers
  import opened Text

  /** A cell identity: file path, sheet name and cell address, compared exactly. */
  datatype Task = Task(file: string, sheet: string, cell: string)

  /** A stored cell value: empty (Python's None), a number, a string, or an
    * array formula with its formula text. */
  datatype Value = Empty | Num(n: int) | Str(s: string) | ArrayF(text: string)

  /** What `ws[address]` gives: one cell, or the rows of a multi-cell range. */
  datatype Target = Single(v: Value) | Grid(rows: seq<seq<Value>>)

  /** A worksheet: its title and the target of every address it can answer.
    * An address missing from `cells` is one that `ws[address]` rejects. */
  datatype Sheet = Sheet(name: string, cells: map<string, Target>)

  /** One loaded view of a workbook: its sheets in workbook order, and whether
    * its table of external links is non-empty. */
  datatype Book = Book(sheets: seq<Sheet>, hasExternalLinks: bool)

  /** One cell of the compiled formula model: its key and the raw reference
    * strings of its inputs, in the model's order. */
  datatype CompiledCell = CompiledCell(key: string, inputs: seq<string>)

  /** The loader results for one file. */
  datatype FileViews = FileViews(
    formulas: Option<Book>,             // load_workbook(path)
    values: Option<Book>,               // load_workbook(path, data_only=True)
    resolved: Option<Book>,             // load_resolved_workbook(path)
    compiled: Option<seq<CompiledCell>> // formulas.ExcelModel().load(path).cells
  )

  /** Everything the resolver reads from outside: the loader results per file
    * path (a path that is not a key fails to load everywhere) and `digest`,
    * the first eight hex digits of the SHA-256 of a string's UTF-8 bytes. */
  datatype Env = Env(files: map<string, FileViews>, digest: string -> string)

  /** What a workbook loader gives for `(path, data_only, use_resolved)`. */
  function LoadBook(env: Env, path: string, dataOnly: bool, useResolved: bool): Option<Book> {
    if path !in env.files then None
    else if useResolved then env.files[path].resolved
    else if dataOnly then env.files[path].values
    else env.files[path].formulas
  }

  /** What building the compiled formula model of `path` gives. */
  function LoadCompiled(env: Env, path: string): Option<seq<CompiledCell>> {
    if path in env.files then env.files[path].compiled else None
  }

  /** Index of the first sheet whose title satisfies the test, from `i` on. */
  function FirstSheetFrom(sheets: seq<Sheet>, name: string, ignoreCase: bool, i: nat): (r: Option<nat>)
    requires i <= |sheets|
    ensures r.Some? ==> i <= r.value < |sheets| && SheetMatches(sheets[r.value], name, ignoreCase)
    ensures r.Some? ==> forall j :: i <= j < r.value ==> !SheetMatches(sheets[j], name, ignoreCase)
    ensures r.None? ==> forall j :: i <= j < |sheets| ==> !SheetMatches(sheets[j], name, ignoreCase)
    decreases |sheets| - i
  {
    if i == |sheets| then None
    else if SheetMatches(sheets[i], name, ignoreCase) then Some(i)
    else FirstSheetFrom(sheets, name, ignoreCase, i + 1)
  }

  predicate SheetMatches(s: Sheet, name: string, ignoreCase: bool) {
    if ignoreCase then Lower(s.name) == Lower(name) else s.name == name
  }

  /** `wb[name]`: the sheet titled exactly `name` (a missing one raises). */
  function SheetNamed(b: Book, name: string): (r: Option<Sheet>)
    ensures r.Some? ==> r.value in b.sheets && r.value.name == name
    ensures r.None? ==> forall s :: s in b.sheets ==> s.name != name
  {
    match FirstSheetFrom(b.sheets, name, false, 0)
    case None => None
    case Some(i) => Some(b.sheets[i])
  }

  /** The first sheet whose title equals `name` ignoring case, the way the
    * scanner finds the real title of the requested sheet. */
  function SheetIgnoringCase(b: Book, name: string): (r: Option<Sheet>)
    ensures r.Some? ==> r.value in b.sheets && Lower(r.value.name) == Lower(name)
    ensures r.None? ==> forall s :: s in b.sheets ==> Lower(s.name) != Lower(name)
  {
    match FirstSheetFrom(b.sheets, name, true, 0)
    case None => None
    case Some(i) => Some(b.sheets[i])
  }

  /** `ws[address]` (None when openpyxl rejects the address). */
  function CellAt(ws: Sheet, address: string): Option<Target> {
    if address in ws.cells then Some(ws.cells[address]) else None
  }

  /** `str(value)`. Array formulas occur only in the formula view, where the
    * scanner never converts them with `str`; their text stands in. */
  function ValueText(v: Value): string {
    match v
    case Empty => "None"
    case Num(n) => IntToString(n)
    case Str(s) => s
    case ArrayF(t) => t
  }

  /** A cell's `.value` as the scanner holds it: None for an empty cell. */
  function ScalarOf(v: Value): Option<Value> {
    if v.Empty? then None else Some(v)
  }

  /** Exceptions raised inside the resolver, with the text `str(e)` gives. */
  datatype Fault =
    | ModelLoadFailed(path: string)              // formulas.ExcelModel().load raised
    | NoSuchSheet(name: string)                  // the ValueError the resolver raises itself
    | MissingSheetKey(name: string)              // wb[name] on a missing title: KeyError
    | BadAddress(address: string)                // ws[address] on an address openpyxl rejects
    | RangeHasNoValue                            // `.value` of a tuple of cells
    | BadReference(reference: string, pieces: nat) // unpacking ref.split('!') into two names

  function FaultText(f: Fault): string {
    match f
    case ModelLoadFailed(p) => "could not build the formula model of " + p
    case NoSuchSheet(n) => "Worksheet '" + n + "' does not exist."
    case MissingSheetKey(n) => "'Worksheet " + n + " does not exist.'"
    case BadAddress(a) => a + " is not a valid coordinate or range"
    case RangeHasNoValue => "'tuple' object has no attribute 'value'"
    case BadReference(_, k) =>
      if k < 2 then "not enough values to unpack (expected 2, got " + NatToString(k) + ")"
      else "too many values to unpack (expected 2)"
  }
}
