/**
 * The scanner's handling of `INDIRECT(...)` in a formula: the call's argument
 * is found, its quoted literals and its cell pieces are separated, the cell
 * pieces are read from the cached-values view, the parts are joined into one
 * reference text in a fixed order, and that text is parsed as an external
 * reference. The outcome adds one dependency, adds a warning to the display
 * text, or changes nothing.
 *
 * The regular expressions involved are written out as scanners that try the
 * candidates in the order Python's backtracking engine tries them.
 */
module Indirect {
  import opened Wrappers
  import opened Text
  import opened Paths
  import opened Workbook
  import opened Collect

  // ----- the argument: `re.search(r'INDIRECT\((.*)\)', f, re.IGNORECASE)` -----

  const Call: string := "INDIRECT("

  /** `INDIRECT(` occurs at `p`, letters compared ignoring ASCII case. */
  predicate CallAt(s: string, p: nat) {
    p + |Call| <= |s| && Upper(s[p..p + |Call|]) == Call
  }

  /** The end of the line holding position `i`: the first newline at or after
    * `i`, or the end of the text (`.` does not match a newline). */
  function LineEnd(s: string, i: nat): (n: nat)
    requires i <= |s|
    ensures i <= n <= |s| && (n < |s| ==> s[n] == '\n')
    ensures forall x :: i <= x < n ==> s[x] != '\n'
  {
    match IndexOf(s, '\n', i)
    case Some(n) => n
    case None => |s|
  }

  /** The last `)` in `s[lo..hi]`: where the greedy `(.*)` gives back to `\)`. */
  function LastCloseParen(s: string, lo: nat, hi: nat): (r: Option<nat>)
    requires lo <= hi <= |s|
    ensures r.Some? ==> lo <= r.value < hi && s[r.value] == ')'
    ensures r.Some? ==> forall x :: r.value < x < hi ==> s[x] != ')'
    ensures r.None? ==> forall x :: lo <= x < hi ==> s[x] != ')'
    decreases hi
  {
    if hi == lo then None
    else if s[hi - 1] == ')' then Some(hi - 1)
    else LastCloseParen(s, lo, hi - 1)
  }

  /** Group 1 of the first match starting at or after `p`: the text from just
    * after an `INDIRECT(` to the last `)` on the same line. */
  function ArgumentFrom(s: string, p: nat): (r: Option<string>)
    requires p <= |s|
    ensures r.Some? ==> '\n' !in r.value
    decreases |s| - p
  {
    if p + |Call| > |s| then None
    else if CallAt(s, p) then
      var lo := p + |Call|;
      match LastCloseParen(s, lo, LineEnd(s, lo))
      case Some(q) =>
        assert forall x :: 0 <= x < q - lo ==> s[lo..q][x] == s[lo + x];
        Some(s[lo..q])
      case None => ArgumentFrom(s, p + 1)
    else ArgumentFrom(s, p + 1)
  }

  function IndirectArgument(formula: string): Option<string> {
    ArgumentFrom(formula, 0)
  }

  // ----- the literals: `re.findall(r'"(.*?)"', arg)` -----

  /** Each `"` opens a literal that ends at the next `"`; when a newline comes
    * first (or no `"` follows) the scan moves on by one character. */
  function QuotedLiterals(s: string): (r: seq<string>)
    ensures forall i :: 0 <= i < |r| ==> '"' !in r[i] && '\n' !in r[i]
    decreases |s|
  {
    if |s| == 0 then []
    else if s[0] == '"' then
      match IndexOf(s, '"', 1)
      case Some(j) =>
        if '\n' in s[1..j] then QuotedLiterals(s[1..])
        else
          assert forall x :: 0 <= x < j - 1 ==> s[1..j][x] == s[x + 1];
          [s[1..j]] + QuotedLiterals(s[j + 1..])
      case None => QuotedLiterals(s[1..])
    else QuotedLiterals(s[1..])
  }

  // ----- the cell pieces: `[p for p in re.split(r'"[^"]*"|&', arg) if p]` -----

  /** `re.split` with the current piece in `cur`: an `&`, or a `"` that has a
    * later `"` (the quoted text may span lines), ends the piece; any other
    * character joins it. */
  function SplitPieces(s: string, cur: string): (r: seq<string>)
    requires '&' !in cur
    ensures |r| > 0 && forall i :: 0 <= i < |r| ==> '&' !in r[i]
    decreases |s|
  {
    if |s| == 0 then [cur]
    else if s[0] == '&' then [cur] + SplitPieces(s[1..], "")
    else if s[0] == '"' && IndexOf(s, '"', 1).Some? then
      [cur] + SplitPieces(s[IndexOf(s, '"', 1).value + 1..], "")
    else SplitPieces(s[1..], cur + [s[0]])
  }

  /** The non-empty strings of `xs`, in order. */
  function NonEmpty(xs: seq<string>): (r: seq<string>)
    ensures forall i :: 0 <= i < |r| ==> r[i] != "" && r[i] in xs
    ensures forall x :: x in xs && x != "" ==> x in r
  {
    if |xs| == 0 then []
    else if xs[0] == "" then NonEmpty(xs[1..])
    else [xs[0]] + NonEmpty(xs[1..])
  }

  /** Dropping the empty strings keeps every other string as often as it
    * occurs. */
  lemma {:induction false} NonEmptyCounts(xs: seq<string>)
    ensures multiset(NonEmpty(xs)) == multiset(xs)["" := 0]
    decreases |xs|
  {
    if |xs| > 0 {
      NonEmptyCounts(xs[1..]);
      assert xs == [xs[0]] + xs[1..];
    }
  }

  function CellPieces(arg: string): seq<string> {
    NonEmpty(SplitPieces(arg, ""))
  }

  // ----- reading the pieces: `str(ws[p.strip()].value)` -----

  /** One piece read from the cached-values sheet: the stripped piece must
    * name a single cell (a range has no `.value`), whose value is rendered
    * with `str`. */
  function EvaluatePiece(ws: Sheet, piece: string): (r: Result<string, Fault>)
    ensures var a := Strip(piece, Whitespace);
      && (r.Ok? <==> a in ws.cells && ws.cells[a].Single?)
      && (r.Ok? ==> r.value == ValueText(ws.cells[a].v))
      && (r.Err? ==> r.error == (if a in ws.cells then RangeHasNoValue else BadAddress(a)))
  {
    var address := Strip(piece, Whitespace);
    match CellAt(ws, address)
    case None => Err(BadAddress(address))
    case Some(Grid(_)) => Err(RangeHasNoValue)
    case Some(Single(v)) => Ok(ValueText(v))
  }

  /** `EvaluatePiece` on one sheet. */
  function Reader(ws: Sheet): string -> Result<string, Fault> {
    piece => EvaluatePiece(ws, piece)
  }

  /** All pieces in order; the first piece that raises ends the evaluation. */
  function EvaluatePieces(ws: Sheet, pieces: seq<string>): (r: Result<seq<string>, Fault>)
    ensures r.Ok? <==> forall i :: 0 <= i < |pieces| ==> EvaluatePiece(ws, pieces[i]).Ok?
    ensures r.Ok? ==> |r.value| == |pieces|
    ensures r.Ok? ==> forall i :: 0 <= i < |pieces| ==> EvaluatePiece(ws, pieces[i]) == Ok(r.value[i])
    ensures r.Err? ==> exists i :: 0 <= i < |pieces| && EvaluatePiece(ws, pieces[i]) == Err(r.error)
                                  && forall j :: 0 <= j < i ==> EvaluatePiece(ws, pieces[j]).Ok?
  {
    CollectWith(Reader(ws), pieces)
  }

  /** The values of the pieces: with no cached-values view the list is empty;
    * a sheet title missing from that view raises `KeyError`. */
  function EvaluateAll(env: Env, path: string, sheetName: string, pieces: seq<string>): (r: Result<seq<string>, Fault>)
    ensures LoadBook(env, path, true, false).None? ==> r == Ok([])
    ensures r.Ok? && LoadBook(env, path, true, false).Some? ==> |r.value| == |pieces|
  {
    match LoadBook(env, path, true, false)
    case None => Ok([])
    case Some(b) =>
      match SheetNamed(b, sheetName)
      case None => Err(MissingSheetKey(sheetName))
      case Some(ws) => EvaluatePieces(ws, pieces)
  }

  /** The reference text: `l0 + l1 + e0 + l2 + e1` when there are exactly
    * three literals and two values, and empty otherwise. */
  function TargetText(literals: seq<string>, values: seq<string>): (t: string)
    ensures t != "" ==> |literals| == 3 && |values| == 2
  {
    if |literals| == 3 && |values| == 2 then literals[0] + literals[1] + values[0] + literals[2] + values[1]
    else ""
  }

  // ----- the reference: `re.search(r"'?(.*\\\[(.*?)\])(.*?)'?!([A-Z0-9]+)", t, re.IGNORECASE)` -----

  /** `[A-Z0-9]` ignoring ASCII case. */
  predicate RefChar(c: char) {
    'A' <= c <= 'Z' || 'a' <= c <= 'z' || '0' <= c <= '9'
  }

  /** The end of the run of `RefChar`s from `i`: `[A-Z0-9]+` is greedy and
    * ends the pattern, so it takes the whole run. */
  function RefCharsEnd(t: string, i: nat): (e: nat)
    requires i <= |t|
    ensures i <= e <= |t| && forall x :: i <= x < e ==> RefChar(t[x])
    ensures e < |t| ==> !RefChar(t[e])
    decreases |t| - i
  {
    if i < |t| && RefChar(t[i]) then RefCharsEnd(t, i + 1) else i
  }

  /** `'?!([A-Z0-9]+)` at `k`: the span of the cell address. The optional quote
    * is tried first; without it the `!` must be at `k` itself. */
  function CellAfter(t: string, k: nat): (r: Option<(nat, nat)>)
    requires k <= |t|
    ensures r.Some? ==> k < r.value.0 < r.value.1 <= |t|
    ensures r.Some? ==> forall x :: r.value.0 <= x < r.value.1 ==> RefChar(t[x])
  {
    if k + 1 < |t| && t[k] == '\'' && t[k + 1] == '!' && RefCharsEnd(t, k + 2) > k + 2 then
      Some((k + 2, RefCharsEnd(t, k + 2)))
    else if k < |t| && t[k] == '!' && RefCharsEnd(t, k + 1) > k + 1 then
      Some((k + 1, RefCharsEnd(t, k + 1)))
    else None
  }

  /** A lazy `(.*?)` from `k` followed by the rest of a pattern: the first
    * position, without crossing a newline, at which the rest (`ok`) matches. */
  function LazyEnd(t: string, k: nat, ok: nat -> bool): (r: Option<nat>)
    requires k <= |t|
    ensures r.Some? ==> k <= r.value <= |t| && ok(r.value)
    decreases |t| - k
  {
    if ok(k) then Some(k)
    else if k < |t| && t[k] != '\n' then LazyEnd(t, k + 1, ok)
    else None
  }

  /** A greedy `.*` ending somewhere in `[a, b]` followed by the rest of a
    * pattern: the last position at which the rest (`ok`) matches. */
  function GreedyEnd(a: nat, b: nat, ok: nat -> bool): (r: Option<nat>)
    requires a <= b
    ensures r.Some? ==> a <= r.value <= b && ok(r.value)
    decreases b - a
  {
    if ok(b) then Some(b)
    else if b == a then None
    else GreedyEnd(a, b - 1, ok)
  }

  /** The cell part matches at the position. */
  function CellOk(t: string): nat -> bool {
    (k: nat) => k <= |t| && CellAfter(t, k).Some?
  }

  /** Group 3 from `k`: the sheet name ends where the cell part first matches. */
  function SheetEnd(t: string, k: nat): (r: Option<nat>)
    requires k <= |t|
    ensures r.Some? ==> k <= r.value <= |t| && CellAfter(t, r.value).Some?
  {
    LazyEnd(t, k, CellOk(t))
  }

  /** `]` at the position, with group 3 and the cell matching after it. */
  function CloseOk(t: string): nat -> bool {
    (j: nat) => j < |t| && t[j] == ']' && SheetEnd(t, j + 1).Some?
  }

  /** `\[` at the position, with group 2 and the rest matching after it. */
  function OpenOk(t: string): nat -> bool {
    (b: nat) => b + 1 < |t| && t[b] == '\\' && t[b + 1] == '[' && LazyEnd(t, b + 2, CloseOk(t)).Some?
  }

  /** The four groups of a match: the path up to and including `[file]`, the
    * file name, the sheet name and the cell address. */
  datatype TargetRef = TargetRef(fullPath: string, file: string, sheet: string, cell: string)

  /** What every match looks like: the path group ends with `\[file]` and
    * the cell group is a non-empty run of letters and digits. */
  predicate Shaped(m: TargetRef) {
    && |m.fullPath| >= |m.file| + 3
    && m.fullPath[|m.fullPath| - |m.file| - 3..] == [Sep, '['] + m.file + "]"
    && |m.cell| > 0 && forall x :: 0 <= x < |m.cell| ==> RefChar(m.cell[x])
  }

  /** The pattern after the leading `'?`, from `a`. */
  function MatchFrom(t: string, a: nat): (r: Option<TargetRef>)
    requires a <= |t|
    ensures r.Some? ==> Shaped(r.value)
  {
    match GreedyEnd(a, LineEnd(t, a), OpenOk(t))
    case None => None
    case Some(b) => Some(GroupsAt(t, a, b))
  }

  /** The groups once `\[` is found at `b`. */
  function GroupsAt(t: string, a: nat, b: nat): (r: TargetRef)
    requires a <= b && OpenOk(t)(b)
    ensures Shaped(r)
  {
    var j := LazyEnd(t, b + 2, CloseOk(t)).value;
    GroupsAfterClose(t, a, b, j)
  }

  /** The groups once `]` is found at `j`. */
  function GroupsAfterClose(t: string, a: nat, b: nat, j: nat): (r: TargetRef)
    requires a <= b && b + 2 <= j < |t| && SheetEnd(t, j + 1).Some?
    requires t[b] == Sep && t[b + 1] == '[' && t[j] == ']'
    ensures Shaped(r)
  {
    var k := SheetEnd(t, j + 1).value;
    var span := CellAfter(t, k).value;
    var r := TargetRef(t[a..j + 1], t[b + 2..j], t[j + 1..k], t[span.0..span.1]);
    assert r.fullPath[|r.fullPath| - |r.file| - 3..] == t[b..j + 1];
    assert t[b..j + 1] == [Sep, '['] + r.file + "]";
    assert forall x :: 0 <= x < |r.cell| ==> r.cell[x] == t[span.0 + x];
    r
  }

  /** A match at `st`: with a quote there, first with the quote consumed by
    * `'?`, then without it. */
  function MatchAt(t: string, st: nat): (r: Option<TargetRef>)
    requires st <= |t|
    ensures r.Some? ==> Shaped(r.value)
  {
    if st < |t| && t[st] == '\'' then
      match MatchFrom(t, st + 1)
      case Some(m) => Some(m)
      case None => MatchFrom(t, st)
    else MatchFrom(t, st)
  }

  /** `re.search`: the first start position from `st` on where a match exists. */
  function SearchFrom(t: string, st: nat): (r: Option<TargetRef>)
    requires st <= |t|
    ensures r.Some? ==> Shaped(r.value)
    decreases |t| - st
  {
    match MatchAt(t, st)
    case Some(m) => Some(m)
    case None => if st == |t| then None else SearchFrom(t, st + 1)
  }

  /** The reference named by the text, if any: its path group ends with the
    * bracketed file name, and its cell is letters and digits. */
  function ParseTarget(t: string): (r: Option<TargetRef>)
    ensures r.Some? ==> Shaped(r.value)
  {
    SearchFrom(t, 0)
  }

  // ----- parsing a reference in the usual layout -----

  lemma {:induction false} LazyEndIs(t: string, k: nat, m: nat, ok: nat -> bool)
    requires k <= m <= |t| && ok(m)
    requires forall x :: k <= x < m ==> !ok(x) && t[x] != '\n'
    ensures LazyEnd(t, k, ok) == Some(m)
    decreases m - k
  {
    if k < m {
      LazyEndIs(t, k + 1, m, ok);
    }
  }

  lemma {:induction false} GreedyEndIs(a: nat, hi: nat, b: nat, ok: nat -> bool)
    requires a <= b <= hi && ok(b)
    requires forall x :: b < x <= hi ==> !ok(x)
    ensures GreedyEnd(a, hi, ok) == Some(b)
    decreases hi - b
  {
    if b < hi {
      GreedyEndIs(a, hi - 1, b, ok);
    }
  }

  lemma {:induction false} RefCharsEndIs(t: string, i: nat, e: nat)
    requires i <= e <= |t| && (e < |t| ==> !RefChar(t[e]))
    requires forall x :: i <= x < e ==> RefChar(t[x])
    ensures RefCharsEnd(t, i) == e
    decreases e - i
  {
    if i < e {
      RefCharsEndIs(t, i + 1, e);
    }
  }

  /** The cell part `'!A1` at `k` and the sheet name before it. */
  lemma SheetAndCell(t: string, j: nat, k: nat)
    requires j < k && k + 2 < |t| && t[k] == '\'' && t[k + 1] == '!'
    requires forall x :: j < x < k ==> t[x] != '!' && t[x] != '\n'
    requires forall x :: k + 2 <= x < |t| ==> RefChar(t[x])
    ensures SheetEnd(t, j + 1) == Some(k) && CellAfter(t, k) == Some((k + 2, |t|))
  {
    CellAtQuote(t, k);
    NoCellBefore(t, j, k);
    LazyEndIs(t, j + 1, k, CellOk(t));
  }

  lemma CellAtQuote(t: string, k: nat)
    requires k + 2 < |t| && t[k] == '\'' && t[k + 1] == '!'
    requires forall x :: k + 2 <= x < |t| ==> RefChar(t[x])
    ensures CellAfter(t, k) == Some((k + 2, |t|))
  {
    RefCharsEndIs(t, k + 2, |t|);
  }

  lemma NoCellBefore(t: string, j: nat, k: nat)
    requires j < k < |t| && t[k] == '\''
    requires forall x :: j < x < k ==> t[x] != '!' && t[x] != '\n'
    ensures forall x :: j + 1 <= x < k ==> !CellOk(t)(x) && t[x] != '\n'
  {
    forall x | j + 1 <= x < k ensures !CellOk(t)(x) && t[x] != '\n' {
      assert x + 1 == k || t[x + 1] != '!';
    }
  }

  /** `]` at `j` is the first after `c`. */
  lemma CloseIs(t: string, c: nat, j: nat)
    requires c <= j < |t| && t[j] == ']' && SheetEnd(t, j + 1).Some?
    requires forall x :: c <= x < j ==> t[x] != ']' && t[x] != '\n'
    ensures LazyEnd(t, c, CloseOk(t)) == Some(j)
  {
    LazyEndIs(t, c, j, CloseOk(t));
  }

  /** `\[` at `d` is the last one. */
  lemma OpenIs(t: string, a: nat, d: nat)
    requires a <= d && d + 1 < |t| && t[d] == '\\' && t[d + 1] == '[' && LazyEnd(t, d + 2, CloseOk(t)).Some?
    requires forall x :: a <= x < |t| ==> t[x] != '\n'
    requires forall x :: d < x < |t| ==> t[x] != '\\'
    ensures GreedyEnd(a, LineEnd(t, a), OpenOk(t)) == Some(d)
  {
    GreedyEndIs(a, |t|, d, OpenOk(t));
  }

  /** The match from `a` when `\[` at `d` is the last one and `]` at `j` is
    * the first after it. */
  lemma MatchFromIs(t: string, a: nat, d: nat, j: nat, k: nat)
    requires a <= d && d + 2 <= j < k < |t| && t[d] == '\\' && t[d + 1] == '[' && t[j] == ']'
    requires forall x :: a <= x < |t| ==> t[x] != '\n'
    requires forall x :: d < x < |t| ==> t[x] != '\\'
    requires forall x :: d + 2 <= x < j ==> t[x] != ']'
    requires SheetEnd(t, j + 1) == Some(k) && CellAfter(t, k) == Some((k + 2, |t|))
    ensures MatchFrom(t, a) == Some(TargetRef(t[a..j + 1], t[d + 2..j], t[j + 1..k], t[k + 2..]))
  {
    CloseIs(t, d + 2, j);
    OpenIs(t, a, d);
    GroupsIs(t, a, d, j, k);
  }

  lemma GroupsIs(t: string, a: nat, d: nat, j: nat, k: nat)
    requires a <= d && OpenOk(t)(d) && LazyEnd(t, d + 2, CloseOk(t)) == Some(j)
    requires SheetEnd(t, j + 1) == Some(k) && CellAfter(t, k) == Some((k + 2, |t|))
    ensures GroupsAt(t, a, d) == TargetRef(t[a..j + 1], t[d + 2..j], t[j + 1..k], t[k + 2..])
  {
    assert GroupsAt(t, a, d) == GroupsAfterClose(t, a, d, j);
    GroupsAfterCloseIs(t, a, d, j, k);
  }

  lemma GroupsAfterCloseIs(t: string, a: nat, d: nat, j: nat, k: nat)
    requires a <= d && d + 2 <= j < |t| && SheetEnd(t, j + 1) == Some(k) && CellAfter(t, k) == Some((k + 2, |t|))
    requires t[d] == Sep && t[d + 1] == '[' && t[j] == ']'
    ensures GroupsAfterClose(t, a, d, j) == TargetRef(t[a..j + 1], t[d + 2..j], t[j + 1..k], t[k + 2..])
  {
    assert t[k + 2..|t|] == t[k + 2..];
  }

  /** A reference text laid out as `'dir\[file]sheet'!cell`, given by its
    * positions: the `\[` at `d`, the `]` at `j` and the `'!` at `k`. */
  lemma ParseTargetAt(t: string, d: nat, j: nat, k: nat)
    requires 1 <= d && d + 2 <= j < k && k + 2 < |t| && t[0] == '\''
    requires t[d] == '\\' && t[d + 1] == '[' && t[j] == ']' && t[k] == '\'' && t[k + 1] == '!'
    requires forall x :: 0 <= x < |t| ==> t[x] != '\n'
    requires forall x :: d < x < |t| ==> t[x] != '\\'
    requires forall x :: d + 2 <= x < j ==> t[x] != ']'
    requires forall x :: j < x < k ==> t[x] != '!'
    requires forall x :: k + 2 <= x < |t| ==> RefChar(t[x])
    ensures ParseTarget(t) == Some(TargetRef(t[1..j + 1], t[d + 2..j], t[j + 1..k], t[k + 2..]))
  {
    SheetAndCell(t, j, k);
    MatchFromIs(t, 1, d, j, k);
  }

  /** The dependency a parsed reference names: the file joined onto the
    * directory of the path group, with the sheet and cell groups. */
  function TargetTask(m: TargetRef): Task {
    Task(Join(Dirname(m.fullPath), m.file), m.sheet, m.cell)
  }

  /** The text `'dir\[file]sheet'!cell`, the layout an INDIRECT argument
    * usually builds. */
  function PrintedTarget(dir: string, file: string, sheet: string, cell: string): string {
    "'" + dir + [Sep] + "[" + file + "]" + sheet + "'!" + cell
  }

  /** A reference in the usual layout parses back into its parts, and names
    * the file in the directory it was written with, when the directory is
    * not a share path, has a name after its drive and root and does not end
    * in a separator, no part spans lines, the file name holds no `]`
    * or separator, the sheet name no `!` or separator, and the cell address
    * is letters and digits. */
  lemma ParsePrintedTarget(dir: string, file: string, sheet: string, cell: string)
    requires dir != "" && !IsUnc(dir) && RootEnd(dir) < |dir| && dir[|dir| - 1] != Sep
    requires '\n' !in dir && '\n' !in file && '\n' !in sheet
    requires Sep !in file && ']' !in file && Sep !in sheet && '!' !in sheet
    requires |cell| > 0 && forall x :: 0 <= x < |cell| ==> RefChar(cell[x])
    ensures ParseTarget(PrintedTarget(dir, file, sheet, cell))
         == Some(TargetRef(dir + [Sep] + "[" + file + "]", file, sheet, cell))
    ensures TargetTask(ParseTarget(PrintedTarget(dir, file, sheet, cell)).value) == Task(Join(dir, file), sheet, cell)
  {
    ParsePrinted(PrintedTarget(dir, file, sheet, cell), dir, file, sheet, cell);
    DirnameOfBracketed(dir, file);
  }

  /** The directory part of `dir\[file]` is `dir` again. */
  lemma DirnameOfBracketed(dir: string, file: string)
    requires dir != "" && !IsUnc(dir) && RootEnd(dir) < |dir| && dir[|dir| - 1] != Sep
    requires Sep !in file
    ensures Dirname(dir + [Sep] + "[" + file + "]") == dir
  {
    assert Join(dir, "[" + file + "]") == dir + [Sep] + "[" + file + "]";
    DirnameOfJoin(dir, "[" + file + "]");
  }

  lemma ParsePrinted(t: string, dir: string, file: string, sheet: string, cell: string)
    requires t == PrintedTarget(dir, file, sheet, cell)
    requires '\n' !in dir && '\n' !in file && '\n' !in sheet
    requires Sep !in file && ']' !in file && Sep !in sheet && '!' !in sheet
    requires |cell| > 0 && forall x :: 0 <= x < |cell| ==> RefChar(cell[x])
    ensures ParseTarget(t) == Some(TargetRef(dir + [Sep] + "[" + file + "]", file, sheet, cell))
  {
    var d := 1 + |dir|;
    var j := d + 2 + |file|;
    var k := j + 1 + |sheet|;
    PrintedTargetChars(t, dir, file, sheet, cell);
    PrintedTargetParts(t, dir, file, sheet, cell);
    ParseTargetGroups(t, d, j, k, TargetRef(dir + [Sep] + "[" + file + "]", file, sheet, cell));
  }

  /** `ParseTargetAt` with the groups named. */
  lemma ParseTargetGroups(t: string, d: nat, j: nat, k: nat, m: TargetRef)
    requires 1 <= d && d + 2 <= j < k && k + 2 < |t| && t[0] == '\''
    requires t[d] == '\\' && t[d + 1] == '[' && t[j] == ']' && t[k] == '\'' && t[k + 1] == '!'
    requires forall x :: 0 <= x < |t| ==> t[x] != '\n'
    requires forall x :: d < x < |t| ==> t[x] != '\\'
    requires forall x :: d + 2 <= x < j ==> t[x] != ']'
    requires forall x :: j < x < k ==> t[x] != '!'
    requires forall x :: k + 2 <= x < |t| ==> RefChar(t[x])
    requires m == TargetRef(t[1..j + 1], t[d + 2..j], t[j + 1..k], t[k + 2..])
    ensures ParseTarget(t) == Some(m)
  {
    ParseTargetAt(t, d, j, k);
  }

  /** The characters of a reference in the usual layout. */
  lemma PrintedTargetChars(t: string, dir: string, file: string, sheet: string, cell: string)
    requires t == PrintedTarget(dir, file, sheet, cell)
    requires '\n' !in dir && '\n' !in file && '\n' !in sheet
    requires Sep !in file && ']' !in file && Sep !in sheet && '!' !in sheet
    requires |cell| > 0 && forall x :: 0 <= x < |cell| ==> RefChar(cell[x])
    ensures var d := 1 + |dir|; var j := d + 2 + |file|; var k := j + 1 + |sheet|;
      && k + 2 < |t| && t[0] == '\''
      && t[d] == '\\' && t[d + 1] == '[' && t[j] == ']' && t[k] == '\'' && t[k + 1] == '!'
      && (forall x :: 0 <= x < |t| ==> t[x] != '\n')
      && (forall x :: d < x < |t| ==> t[x] != '\\')
      && (forall x :: d + 2 <= x < j ==> t[x] != ']')
      && (forall x :: j < x < k ==> t[x] != '!')
      && (forall x :: k + 2 <= x < |t| ==> RefChar(t[x]))
  {
    var d := 1 + |dir|;
    var j := d + 2 + |file|;
    var k := j + 1 + |sheet|;
    forall x | 0 <= x < |t| ensures t[x] != '\n' && (d < x ==> t[x] != '\\') {
      if 1 <= x < d { assert t[x] == dir[x - 1]; }
      else if d + 2 <= x < j { assert t[x] == file[x - d - 2]; }
      else if j < x < k { assert t[x] == sheet[x - j - 1]; }
      else if k + 2 <= x { assert t[x] == cell[x - k - 2]; assert RefChar(cell[x - k - 2]); }
    }
    forall x | d + 2 <= x < j ensures t[x] != ']' {
      assert t[x] == file[x - d - 2];
    }
    forall x | j < x < k ensures t[x] != '!' {
      assert t[x] == sheet[x - j - 1];
    }
    forall x | k + 2 <= x < |t| ensures RefChar(t[x]) {
      assert t[x] == cell[x - k - 2];
    }
  }

  /** The slices of a reference in the usual layout. */
  lemma PrintedTargetParts(t: string, dir: string, file: string, sheet: string, cell: string)
    requires t == PrintedTarget(dir, file, sheet, cell)
    ensures var d := 1 + |dir|; var j := d + 2 + |file|; var k := j + 1 + |sheet|;
      && |t| == k + 2 + |cell|
      && t[1..j + 1] == dir + [Sep] + "[" + file + "]"
      && t[d + 2..j] == file && t[j + 1..k] == sheet && t[k + 2..] == cell
  {
    assert t == "'" + (dir + [Sep] + "[" + file + "]") + sheet + "'!" + cell;
  }

  // ----- the outcome -----

  /** What INDIRECT handling does to the resolver's result: nothing, one
    * dependency put in front of the others, or a warning appended to the
    * display text. */
  datatype Effect = Unchanged | Prepend(dep: Task) | Warn(note: string)

  function ParseWarning(t: string): string {
    " [Tracer Warning: Could not parse INDIRECT result '" + t + "']"
  }

  function ResolveWarning(f: Fault): string {
    " [Tracer Warning: Could not resolve INDIRECT -> " + FaultText(f) + "]"
  }

  /** The outcome for a non-empty-or-empty reference text. */
  function FromTarget(t: string): (r: Effect)
    ensures r.Unchanged? <==> t == ""
    ensures r.Warn? ==> r.note == ParseWarning(t) && ParseTarget(t).None?
    ensures r.Prepend? ==> ParseTarget(t).Some? && r.dep == TargetTask(ParseTarget(t).value)
  {
    if t == "" then Unchanged
    else match ParseTarget(t)
      case Some(m) => Prepend(TargetTask(m))
      case None => Warn(ParseWarning(t))
  }

  /** INDIRECT handling for the formula text of the cell `path`/`sheetName`. */
  function IndirectEffect(env: Env, path: string, sheetName: string, formula: string): (r: Effect)
    ensures !Contains(Upper(formula), "INDIRECT") || IndirectArgument(formula).None? ==> r == Unchanged
    ensures LoadBook(env, path, true, false).None? ==> r == Unchanged
    ensures r.Prepend? ==>
      var arg := IndirectArgument(formula).value;
      var vals := EvaluateAll(env, path, sheetName, CellPieces(arg));
      && |QuotedLiterals(arg)| == 3 && vals.Ok? && |vals.value| == 2
      && ParseTarget(TargetText(QuotedLiterals(arg), vals.value)).Some?
    ensures Contains(Upper(formula), "INDIRECT") && IndirectArgument(formula).Some? ==>
      var arg := IndirectArgument(formula).value;
      var vals := EvaluateAll(env, path, sheetName, CellPieces(arg));
      && (vals.Err? ==> r == Warn(ResolveWarning(vals.error)))
      && (vals.Ok? && (|QuotedLiterals(arg)| != 3 || |vals.value| != 2) ==> r == Unchanged)
      && (LoadBook(env, path, true, false).Some? && vals.Ok? && |QuotedLiterals(arg)| == 3 && |vals.value| == 2 ==>
            r == FromTarget(TargetText(QuotedLiterals(arg), vals.value)))
  {
    if !Contains(Upper(formula), "INDIRECT") then Unchanged
    else match IndirectArgument(formula)
      case None => Unchanged
      case Some(arg) =>
        match EvaluateAll(env, path, sheetName, CellPieces(arg))
        case Err(f) => Warn(ResolveWarning(f))
        case Ok(vals) => FromTarget(TargetText(QuotedLiterals(arg), vals))
  }

  // ----- the usual call: `INDIRECT("l0"&"l1"&r0&"l2"&r1)` -----

  /** `"x"`: a string literal of the formula language. */
  function Quoted(x: string): string {
    "\"" + x + "\""
  }

  /** The argument `"l0"&"l1"&r0&"l2"&r1`: three literals and two cell
    * addresses, joined in the order the reference text puts them together. */
  function ConcatArgument(l0: string, l1: string, r0: string, l2: string, r1: string): string {
    Quoted(l0) + "&" + Quoted(l1) + "&" + r0 + "&" + Quoted(l2) + "&" + r1
  }

  /** The layout of `=INDIRECT(arg)`. */
  lemma CallLayout(s: string, arg: string)
    requires s == "=" + Call + arg + ")"
    ensures |s| == |arg| + 11 && s[0] == '=' && s[1..10] == Call && s[|s| - 1] == ')'
    ensures s[10..|s| - 1] == arg
    ensures forall x :: 10 <= x < |s| - 1 ==> s[x] == arg[x - 10]
  {
  }

  /** A call that the pattern finds also passes the upper-case test. */
  lemma CallIsContained(s: string, p: nat)
    requires CallAt(s, p)
    ensures Contains(Upper(s), "INDIRECT")
  {
    assert Upper(s)[p..p + 8] == Upper(s[p..p + |Call|])[..8];
    assert OccursAt(Upper(s), "INDIRECT", p);
    ContainsMeansOccurs(Upper(s), "INDIRECT");
  }

  /** When `INDIRECT(` starts at `p` and the rest of the text is one line
    * ending in `)`, the argument runs from the call to that last `)`. */
  lemma ArgumentAtCall(s: string, p: nat)
    requires CallAt(s, p) && p + |Call| < |s| && s[|s| - 1] == ')'
    requires forall x :: p + |Call| <= x < |s| ==> s[x] != '\n'
    ensures ArgumentFrom(s, p) == Some(s[p + |Call|..|s| - 1])
  {
    IndexOfNone(s, p + |Call|);
  }

  lemma IndexOfNone(s: string, i: nat)
    requires i <= |s|
    requires forall x :: i <= x < |s| ==> s[x] != '\n'
    ensures LineEnd(s, i) == |s|
  {
  }

  /** The argument of `=INDIRECT(arg)` on one line is `arg`: the greedy group
    * runs to the last `)` of the line. */
  lemma ArgumentOfCall(arg: string)
    requires '\n' !in arg
    ensures Contains(Upper("=" + Call + arg + ")"), "INDIRECT")
    ensures IndirectArgument("=" + Call + arg + ")") == Some(arg)
  {
    var s := "=" + Call + arg + ")";
    CallLayout(s, arg);
    assert CallAt(s, 1);
    CallIsContained(s, 1);
    assert !CallAt(s, 0) by { assert Upper(s[0..|Call|])[0] == '='; }
    ArgumentAtCall(s, 1);
  }

  /** A quoted literal at the front is the first literal found. */
  lemma LiteralsOfQuoted(l: string, rest: string)
    requires '"' !in l && '\n' !in l
    ensures QuotedLiterals(Quoted(l) + rest) == [l] + QuotedLiterals(rest)
  {
    var s := Quoted(l) + rest;
    assert s[1..|l| + 1] == l;
    IndexOfIs(s, '"', 1, |l| + 1);
    assert s[|l| + 2..] == rest;
  }

  /** Text without a `"` holds no literal. */
  lemma {:induction false} LiteralsSkip(x: string, rest: string)
    requires '"' !in x
    ensures QuotedLiterals(x + rest) == QuotedLiterals(rest)
    decreases |x|
  {
    if |x| == 0 {
      assert x + rest == rest;
    } else {
      assert (x + rest)[1..] == x[1..] + rest;
      LiteralsSkip(x[1..], rest);
    }
  }

  /** The literals of the usual argument are its three quoted strings. */
  lemma LiteralsOfConcat(l0: string, l1: string, r0: string, l2: string, r1: string)
    requires '"' !in l0 && '\n' !in l0 && '"' !in l1 && '\n' !in l1 && '"' !in l2 && '\n' !in l2
    requires '"' !in r0 && '"' !in r1
    ensures QuotedLiterals(ConcatArgument(l0, l1, r0, l2, r1)) == [l0, l1, l2]
  {
    var t4 := "&" + r1;
    var t3 := Quoted(l2) + t4;
    var t2 := Quoted(l1) + (("&" + r0 + "&") + t3);
    var t1 := "&" + t2;
    assert ConcatArgument(l0, l1, r0, l2, r1) == Quoted(l0) + t1;
    assert QuotedLiterals(Quoted(l0) + t1) == [l0] + QuotedLiterals(t1) by { LiteralsOfQuoted(l0, t1); }
    assert QuotedLiterals(t1) == QuotedLiterals(t2) by { LiteralsSkip("&", t2); }
    assert QuotedLiterals(t2) == [l1] + QuotedLiterals(("&" + r0 + "&") + t3) by {
      LiteralsOfQuoted(l1, ("&" + r0 + "&") + t3);
    }
    assert QuotedLiterals(("&" + r0 + "&") + t3) == QuotedLiterals(t3) by { LiteralsSkip("&" + r0 + "&", t3); }
    assert QuotedLiterals(t3) == [l2] + QuotedLiterals(t4) by { LiteralsOfQuoted(l2, t4); }
    assert QuotedLiterals(t4) == [] by {
      LiteralsSkip(t4, "");
      assert t4 + "" == t4;
    }
  }

  /** A quoted literal ends the current piece and is dropped. */
  lemma SplitQuoted(l: string, rest: string, cur: string)
    requires '"' !in l && '&' !in cur
    ensures SplitPieces(Quoted(l) + rest, cur) == [cur] + SplitPieces(rest, "")
  {
    var s := Quoted(l) + rest;
    IndexOfIs(s, '"', 1, |l| + 1);
    assert s[|l| + 2..] == rest;
  }

  /** An `&` ends the current piece. */
  lemma SplitAmp(rest: string, cur: string)
    requires '&' !in cur
    ensures SplitPieces("&" + rest, cur) == [cur] + SplitPieces(rest, "")
  {
    assert ("&" + rest)[1..] == rest;
  }

  /** Text without `"` or `&` joins the current piece. */
  lemma {:induction false} SplitPlain(x: string, rest: string, cur: string)
    requires '"' !in x && '&' !in x && '&' !in cur
    ensures SplitPieces(x + rest, cur) == SplitPieces(rest, cur + x)
    decreases |x|
  {
    if |x| == 0 {
      assert x + rest == rest && cur + x == cur;
    } else {
      assert (x + rest)[0] == x[0] && (x + rest)[1..] == x[1..] + rest;
      SplitPlain(x[1..], rest, cur + [x[0]]);
      assert cur + [x[0]] + x[1..] == cur + x;
    }
  }

  /** Dropping empty strings distributes over concatenation. */
  lemma {:induction false} NonEmptyAppend(a: seq<string>, b: seq<string>)
    ensures NonEmpty(a + b) == NonEmpty(a) + NonEmpty(b)
    decreases |a|
  {
    if |a| == 0 {
      assert a + b == b;
    } else {
      assert (a + b)[0] == a[0] && (a + b)[1..] == a[1..] + b;
      NonEmptyAppend(a[1..], b);
    }
  }

  /** The cell pieces of the usual argument are its two addresses. */
  lemma PiecesOfConcat(l0: string, l1: string, r0: string, l2: string, r1: string)
    requires '"' !in l0 && '"' !in l1 && '"' !in l2
    requires r0 != "" && '"' !in r0 && '&' !in r0 && r1 != "" && '"' !in r1 && '&' !in r1
    ensures CellPieces(ConcatArgument(l0, l1, r0, l2, r1)) == [r0, r1]
  {
    var t4 := Quoted(l2) + ("&" + r1);
    var t3 := r0 + ("&" + t4);
    var t2 := Quoted(l1) + ("&" + t3);
    var t1 := "&" + t2;
    assert ConcatArgument(l0, l1, r0, l2, r1) == Quoted(l0) + t1;
    var front := SplitPieces(t3, "");
    var back := SplitPieces(t4, "");
    assert SplitPieces(Quoted(l0) + t1, "") == ["", "", "", ""] + front by { SplitFront(l0, l1, t3); }
    assert front == [r0] + back by {
      SplitPlain(r0, "&" + t4, "");
      assert "" + r0 == r0;
      SplitAmp(t4, r0);
    }
    assert back == ["", "", r1] by { SplitBack(l2, r1); }
    NonEmptyOfPieces(["", "", "", ""] + front, r0, r1, front, back);
  }

  /** `"l0"&"l1"&` in front: four empty pieces. */
  lemma SplitFront(l0: string, l1: string, rest: string)
    requires '"' !in l0 && '"' !in l1
    ensures SplitPieces(Quoted(l0) + ("&" + (Quoted(l1) + ("&" + rest))), "") == ["", "", "", ""] + SplitPieces(rest, "")
  {
    SplitQuoted(l0, "&" + (Quoted(l1) + ("&" + rest)), "");
    SplitAmp(Quoted(l1) + ("&" + rest), "");
    SplitQuoted(l1, "&" + rest, "");
    SplitAmp(rest, "");
  }

  /** `"l2"&r1` at the end: two empty pieces and `r1`. */
  lemma SplitBack(l2: string, r1: string)
    requires '"' !in l2 && '"' !in r1 && '&' !in r1
    ensures SplitPieces(Quoted(l2) + ("&" + r1), "") == ["", "", r1]
  {
    SplitQuoted(l2, "&" + r1, "");
    SplitAmp(r1, "");
    SplitPlain(r1, "", "");
    assert r1 + "" == r1 && "" + r1 == r1;
  }

  lemma NonEmptyOfPieces(all: seq<string>, r0: string, r1: string, front: seq<string>, back: seq<string>)
    requires r0 != "" && r1 != ""
    requires all == ["", "", "", ""] + front && front == [r0] + back && back == ["", "", r1]
    ensures NonEmpty(all) == [r0, r1]
  {
    assert ["", "", r1] == ["", ""] + [r1];
    assert all == ["", "", "", ""] + ([r0] + (["", ""] + [r1]));
    NonEmptyAppend(["", "", "", ""], [r0] + (["", ""] + [r1]));
    NonEmptyAppend([r0], ["", ""] + [r1]);
    NonEmptyAppend(["", ""], [r1]);
    assert NonEmpty(["", "", "", ""]) == [] by {
      assert ["", "", "", ""][1..] == ["", "", ""] && ["", "", ""][1..] == ["", ""];
      assert ["", ""][1..] == [""] && [""][1..] == [];
    }
    assert NonEmpty(["", ""]) == [] by { assert ["", ""][1..] == [""] && [""][1..] == []; }
    assert NonEmpty([r0]) == [r0] by { assert [r0][1..] == []; }
    assert NonEmpty([r1]) == [r1] by { assert [r1][1..] == []; }
  }

  /** A piece that is a plain address reads that cell. */
  lemma ReadAddress(ws: Sheet, r: string, v: Value)
    requires r != "" && r[0] !in Whitespace && r[|r| - 1] !in Whitespace
    requires CellAt(ws, r) == Some(Single(v))
    ensures EvaluatePiece(ws, r) == Ok(ValueText(v))
  {
    StripSurrounded("", r, "", Whitespace);
    assert "" + r + "" == r;
  }

  /** Two plain addresses read in order. */
  lemma ReadTwo(env: Env, path: string, sheetName: string, ws: Sheet, r0: string, r1: string, v0: Value, v1: Value)
    requires LoadBook(env, path, true, false).Some?
    requires SheetNamed(LoadBook(env, path, true, false).value, sheetName) == Some(ws)
    requires r0 != "" && r0[0] !in Whitespace && r0[|r0| - 1] !in Whitespace && CellAt(ws, r0) == Some(Single(v0))
    requires r1 != "" && r1[0] !in Whitespace && r1[|r1| - 1] !in Whitespace && CellAt(ws, r1) == Some(Single(v1))
    ensures EvaluateAll(env, path, sheetName, [r0, r1]) == Ok([ValueText(v0), ValueText(v1)])
  {
    ReadAddress(ws, r0, v0);
    ReadAddress(ws, r1, v1);
    var e := EvaluatePieces(ws, [r0, r1]);
    assert e.Ok?;
    assert |e.value| == 2 && e.value[0] == ValueText(v0) && e.value[1] == ValueText(v1);
    assert e.value == [ValueText(v0), ValueText(v1)];
    assert EvaluateAll(env, path, sheetName, [r0, r1]) == e;
  }

  /** `=INDIRECT("l0"&"l1"&r0&"l2"&r1)` with `r0` and `r1` naming single cells
    * of the cached-values view: the reference text is `l0 + l1 + v0 + l2 + v1`,
    * and the outcome is decided by parsing it. */
  lemma IndirectOfConcat(env: Env, path: string, sheetName: string, ws: Sheet,
                         l0: string, l1: string, r0: string, l2: string, r1: string, v0: Value, v1: Value)
    requires '"' !in l0 && '\n' !in l0 && '"' !in l1 && '\n' !in l1 && '"' !in l2 && '\n' !in l2
    requires '"' !in r0 && '&' !in r0 && '\n' !in r0 && '"' !in r1 && '&' !in r1 && '\n' !in r1
    requires LoadBook(env, path, true, false).Some?
    requires SheetNamed(LoadBook(env, path, true, false).value, sheetName) == Some(ws)
    requires r0 != "" && r0[0] !in Whitespace && r0[|r0| - 1] !in Whitespace && CellAt(ws, r0) == Some(Single(v0))
    requires r1 != "" && r1[0] !in Whitespace && r1[|r1| - 1] !in Whitespace && CellAt(ws, r1) == Some(Single(v1))
    ensures IndirectEffect(env, path, sheetName, "=" + Call + ConcatArgument(l0, l1, r0, l2, r1) + ")")
         == FromTarget(l0 + l1 + ValueText(v0) + l2 + ValueText(v1))
  {
    var arg := ConcatArgument(l0, l1, r0, l2, r1);
    assert '\n' !in arg;
    ArgumentOfCall(arg);
    LiteralsOfConcat(l0, l1, r0, l2, r1);
    PiecesOfConcat(l0, l1, r0, l2, r1);
    ReadTwo(env, path, sheetName, ws, r0, r1, v0, v1);
  }

  /** A reference text in the usual layout adds the file it names, joined to
    * the directory it names, as the first dependency. */
  lemma FromPrintedTarget(dir: string, file: string, sheet: string, cell: string)
    requires dir != "" && !IsUnc(dir) && RootEnd(dir) < |dir| && dir[|dir| - 1] != Sep
    requires '\n' !in dir && '\n' !in file && '\n' !in sheet
    requires Sep !in file && ']' !in file && Sep !in sheet && '!' !in sheet
    requires |cell| > 0 && forall x :: 0 <= x < |cell| ==> RefChar(cell[x])
    ensures FromTarget(PrintedTarget(dir, file, sheet, cell)) == Prepend(Task(Join(dir, file), sheet, cell))
  {
    ParsePrintedTarget(dir, file, sheet, cell);
  }
}
