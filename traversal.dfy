/**
 * The depth-first walk of `process_task_recursively`: each cell is resolved,
 * printed under a header, registered in the report the first time it is
 * met, and its dependencies are walked in formula order with a fresh copy
 * of the branch path, so that a cell already on the branch is printed as a
 * circular reference instead of being expanded again.
 *
 * The walk is specified in three layers: `Build` gives its shape (the tree of
 * resolved cells and cut-off cycles), `Render` the printed lines of a tree,
 * and `Register` the report list. `Tracer.Process` is the recursive method
 * with the shared report set and list, proved to produce exactly these.
 */
module Traversal {
  import opened Wrappers
  import opened Text
  import opened Paths
  import opened Workbook
  import opened Resolver
  import opened Ordering
  import Cache

  // ----- headers and printed lines -----

  /** The `display_mode` argument. */
  datatype DisplayMode = Simple | Detail | FullPath

  /** `[basename]sheet!cell`. */
  function Bracketed(task: Task): string {
    "[" + Basename(task.file) + "]" + task.sheet + "!" + task.cell
  }

  /** The header of a cell reached from `parent` (None at the root). */
  function Header(mode: DisplayMode, task: Task, parent: Option<Task>): string {
    match mode
    case Simple =>
      if parent.Some? && task.file == parent.value.file then
        if Lower(task.sheet) == Lower(parent.value.sheet) then task.cell
        else task.sheet + "!" + task.cell
      else Bracketed(task)
    case Detail => Bracketed(task)
    case FullPath => task.file + "|" + task.sheet + "!" + task.cell
  }

  /** Every header ends with the cell address, and outside the full-path
    * mode the header only drops a leading part of the detailed one. */
  lemma HeaderEnds(mode: DisplayMode, task: Task, parent: Option<Task>)
    ensures EndsWith(Header(mode, task, parent), task.cell)
    ensures mode != FullPath ==> EndsWith(Bracketed(task), Header(mode, task, parent))
  {
    BracketedEnds(task);
    SheetCellEnds(task);
    FullPathEnds(task);
    assert EndsWith(Bracketed(task), Bracketed(task)) by {
      assert Bracketed(task)[|Bracketed(task)| - |Bracketed(task)|..] == Bracketed(task);
    }
  }

  /** `s` ends with `t`. */
  predicate EndsWith(s: string, t: string) {
    |t| <= |s| && s[|s| - |t|..] == t
  }

  /** A concatenation ends with its last part. */
  lemma EndsWithTail(a: string, b: string)
    ensures EndsWith(a + b, b)
  {
    assert (a + b)[|a + b| - |b|..] == b;
  }

  /** Ending with a string that ends with `u` means ending with `u`. */
  lemma EndsWithTransitive(s: string, t: string, u: string)
    requires EndsWith(s, t) && EndsWith(t, u)
    ensures EndsWith(s, u)
  {
    assert s[|s| - |u|..] == t[|t| - |u|..];
  }

  /** `sheet!cell` ends with the cell. */
  lemma SheetCellEnds(task: Task)
    ensures EndsWith(task.sheet + "!" + task.cell, task.cell)
  {
    EndsWithTail(task.sheet + "!", task.cell);
  }

  /** The detailed header ends with `sheet!cell`, hence with the cell. */
  lemma BracketedEnds(task: Task)
    ensures EndsWith(Bracketed(task), task.sheet + "!" + task.cell)
    ensures EndsWith(Bracketed(task), task.cell)
  {
    var sc := task.sheet + "!" + task.cell;
    assert Bracketed(task) == "[" + Basename(task.file) + "]" + sc;
    EndsWithTail("[" + Basename(task.file) + "]", sc);
    SheetCellEnds(task);
    EndsWithTransitive(Bracketed(task), sc, task.cell);
  }

  /** The full-path header ends with the cell. */
  lemma FullPathEnds(task: Task)
    ensures EndsWith(task.file + "|" + task.sheet + "!" + task.cell, task.cell)
  {
    var sc := task.sheet + "!" + task.cell;
    assert task.file + "|" + task.sheet + "!" + task.cell == task.file + "|" + sc;
    EndsWithTail(task.file + "|", sc);
    SheetCellEnds(task);
    EndsWithTransitive(task.file + "|" + sc, sc, task.cell);
  }

  /** In simple mode the root's header is the detailed one, and a cell of
    * the parent's file is shown by its address alone exactly when its sheet
    * has the parent's sheet name ignoring case. */
  lemma SimpleHeader(task: Task, parent: Option<Task>)
    ensures parent.None? ==> Header(Simple, task, parent) == Header(Detail, task, parent)
    ensures parent.Some? && parent.value.file == task.file ==>
      (Header(Simple, task, parent) == task.cell <==> Lower(task.sheet) == Lower(parent.value.sheet))
  {
    if parent.Some? && parent.value.file == task.file && Lower(task.sheet) != Lower(parent.value.sheet) {
      assert |task.sheet + "!" + task.cell| > |task.cell|;
    }
  }

  /** The line printed for a cell already on the branch. */
  function CycleLine(prefix: string, task: Task): string {
    prefix + "📍 Circular reference to " + Bracketed(task) + " detected, stopping expansion."
  }

  /** The lines printed for a resolved cell: a range characteristic takes
    * two lines, a plain value one and a formula three (header, formula text,
    * cached result); the first line pins the header under the prefix. */
  function NodeLines(prefix: string, header: string, r: Traced): (ls: seq<string>)
    ensures |ls| == (if r.isFormula then 3 else if |r.content| > 0 && r.content[0] == '[' then 2 else 1)
  {
    if !r.isFormula && |r.content| > 0 && r.content[0] == '[' then
      [prefix + "📍 " + header,
       ReplaceAll(prefix, "📍", " ") + "🔷 Characteristic: " + r.content]
    else if !r.isFormula then
      [prefix + "📍 " + header + ": " + (if r.actual.Some? then PlainDisplay(r.actual.value) else r.content)]
    else
      [prefix + "📍 " + header,
       prefix + "⚙️ Formula:" + " " + r.content,
       prefix + "📊 Result: " + (if r.actual.Some? then PlainDisplay(r.actual.value) else "[Unable to calculate]")]
  }

  /** The first line pins the header under the prefix; a formula's other
    * lines start with the prefix; a plain value's one line carries the
    * header, then its cached value when there is one and its display text
    * otherwise. */
  lemma NodeLinesText(prefix: string, header: string, r: Traced)
    ensures var ls := NodeLines(prefix, header, r);
      && prefix + "📍 " + header <= ls[0]
      && (r.isFormula ==> prefix <= ls[1] && prefix <= ls[2])
      && (!r.isFormula && !(|r.content| > 0 && r.content[0] == '[') ==>
            ls[0] == prefix + "📍 " + header + ": " + (if r.actual.Some? then PlainDisplay(r.actual.value) else r.content))
  {
    var pin := prefix + "📍 " + header;
    if !r.isFormula && !(|r.content| > 0 && r.content[0] == '[') {
      var v := if r.actual.Some? then PlainDisplay(r.actual.value) else r.content;
      assert pin + ": " + v == pin + (": " + v);
    }
  }

  /** Under a tree prefix every line of a cell starts with that prefix: the
    * characteristic line's rewrite of the pin leaves a tree prefix alone. */
  lemma NodeLinesShape(lasts: seq<bool>, header: string, r: Traced)
    ensures var prefix := TreePrefix(lasts);
      var ls := NodeLines(prefix, header, r);
      forall k :: 0 <= k < |ls| ==> prefix <= ls[k]
  {
    TreePrefixHasNoPin(lasts);
  }

  // ----- tree prefixes -----

  /** The marker of a child: the last child gets a corner. */
  function Branch(isLast: bool): string {
    if isLast then "└─ " else "├─ "
  }

  /** The prefix of a child: the parent's markers become continuation bars
    * (or blanks after a last child), then the child's own marker, a corner
    * exactly for the last child. */
  function ChildPrefix(prefix: string, isLast: bool): string {
    ReplaceAll(ReplaceAll(prefix, "├─", "│    "), "└─", "     ") + Branch(isLast)
  }

  /** A child's prefix ends with its own marker. */
  lemma ChildPrefixEnds(prefix: string, isLast: bool)
    ensures EndsWith(ChildPrefix(prefix, isLast), Branch(isLast))
  {
    EndsWithTail(ReplaceAll(ReplaceAll(prefix, "├─", "│    "), "└─", "     "), Branch(isLast));
  }


  /** The column left under an ancestor: a bar while it has later siblings. */
  function Bar(isLast: bool): string {
    if isLast then "      " else "│     "
  }

  /** The bars of a sequence of ancestors. */
  function Bars(lasts: seq<bool>): string {
    if |lasts| == 0 then "" else Bars(lasts[..|lasts| - 1]) + Bar(lasts[|lasts| - 1])
  }

  /** The prefix of a cell whose ancestors below the root are, in turn, last
    * children or not as `lasts` says (the root's is empty). */
  function TreePrefix(lasts: seq<bool>): string {
    if |lasts| == 0 then "" else Bars(lasts[..|lasts| - 1]) + Branch(lasts[|lasts| - 1])
  }

  /** Bars are made of bar and blank characters only. */
  lemma {:induction false} BarsChars(lasts: seq<bool>)
    ensures forall k :: 0 <= k < |Bars(lasts)| ==> Bars(lasts)[k] == '│' || Bars(lasts)[k] == ' '
    decreases |lasts|
  {
    if |lasts| > 0 {
      BarsChars(lasts[..|lasts| - 1]);
    }
  }

  /** Replacing in bars followed by `tail` only touches `tail`. */
  lemma BarsKept(lasts: seq<bool>, tail: string, pat: string, with: string)
    requires |pat| > 0 && (pat[0] == '├' || pat[0] == '└' || pat[0] == '📍')
    ensures ReplaceAll(Bars(lasts) + tail, pat, with) == Bars(lasts) + ReplaceAll(tail, pat, with)
  {
    BarsChars(lasts);
    ReplaceSkipsHead(Bars(lasts), tail, pat, with);
  }

  /** Replacing in a string that does not hold the first character of
    * `pat` changes nothing. */
  lemma ReplaceNone(s: string, pat: string, with: string)
    requires |pat| > 0 && forall k :: 0 <= k < |s| ==> s[k] != pat[0]
    ensures ReplaceAll(s, pat, with) == s
  {
    ReplaceSkipsHead(s, "", pat, with);
    assert s + "" == s;
  }

  /** The rewrite of a child's marker leaves the column below it. */
  lemma BranchRewrite(isLast: bool)
    ensures ReplaceAll(ReplaceAll(Branch(isLast), "├─", "│    "), "└─", "     ") == Bar(isLast)
  {
    if isLast {
      ReplaceNone("└─ ", "├─", "│    ");
      var s := "└─ ";
      assert "└─" <= s && s[2..] == " ";
      ReplaceNone(" ", "└─", "     ");
      assert ReplaceAll(s, "└─", "     ") == "     " + " " == "      ";
    } else {
      var s := "├─ ";
      assert "├─" <= s && s[2..] == " ";
      ReplaceNone(" ", "├─", "│    ");
      assert ReplaceAll(s, "├─", "│    ") == "│    " + " " == "│     ";
      ReplaceNone("│     ", "└─", "     ");
      assert Bar(isLast) == "│     ";
    }
  }

  /** The rewrite of a prefix turns the prefix of a cell into the prefix of
    * its child, whatever the depth: the tree drawing is determined by which
    * ancestors are last children. */
  lemma ChildPrefixOfTree(lasts: seq<bool>, isLast: bool)
    ensures ChildPrefix(TreePrefix(lasts), isLast) == TreePrefix(lasts + [isLast])
  {
    var next := lasts + [isLast];
    assert next[..|next| - 1] == lasts;
    if |lasts| > 0 {
      var init := lasts[..|lasts| - 1];
      var last := lasts[|lasts| - 1];
      var once := ReplaceAll(Branch(last), "├─", "│    ");
      BarsKept(init, Branch(last), "├─", "│    ");
      BarsKept(init, once, "└─", "     ");
      BranchRewrite(last);
      assert Bars(lasts) == Bars(init) + Bar(last);
    }
  }

  /** A tree prefix holds no pin, so the characteristic line keeps the
    * prefix unchanged. */
  lemma TreePrefixHasNoPin(lasts: seq<bool>)
    ensures ReplaceAll(TreePrefix(lasts), "📍", " ") == TreePrefix(lasts)
  {
    if |lasts| > 0 {
      var init := lasts[..|lasts| - 1];
      BarsKept(init, Branch(lasts[|lasts| - 1]), "📍", " ");
      ReplaceNone(Branch(lasts[|lasts| - 1]), "📍", " ");
    }
  }

  // ----- the shape of the walk -----

  /** A walked cell: cut off as a circular reference, or resolved with its
    * children. */
  datatype Tree =
    | Cut(task: Task)
    | Node(task: Task, traced: Traced, kids: seq<Tree>)

  /** The formula the children are ordered by: the content of a formula cell. */
  function FormulaForOrder(r: Traced): Option<string> {
    if r.isFormula then Some(r.content) else None
  }

  /** Every dependency the tracer can give lies in `universe`: the cells it
    * can reach form a finite set. */
  ghost predicate Closed(trace: Task -> Traced, universe: set<Task>) {
    forall t, d :: d in trace(t).deps ==> d in universe
  }

  /** The dependencies of a cell in the order they are walked. */
  function Children(trace: Task -> Traced, task: Task): seq<Task> {
    OrderDeps(trace(task).deps, FormulaForOrder(trace(task)))
  }

  /** Ordering keeps the children inside the universe. */
  lemma ChildrenInUniverse(trace: Task -> Traced, universe: set<Task>, task: Task)
    requires Closed(trace, universe)
    ensures forall d :: d in Children(trace, task) ==> d in universe
  {
    var r := trace(task);
    OrderDepsPermutation(r.deps, FormulaForOrder(r));
    forall d | d in Children(trace, task) ensures d in universe {
      assert d in multiset(Children(trace, task));
      assert d in multiset(r.deps);
    }
  }

  /** Adding the walked cell to the path shrinks what is left to walk. */
  lemma MeasureDrops(c: set<Task>, task: Task, d: Task, path: set<Task>)
    requires d in c && task !in path
    ensures |(c + {d}) - (path + {task})| < |(c + {task}) - path|
  {
    var after := (c + {d}) - (path + {task});
    var before := (c + {task}) - path;
    assert before == after + {task};
    assert task !in after;
  }

  /** The walk from `task` with the cells of the current branch in `path`:
    * a cell on the path is cut off without being traced, any other cell
    * carries the tracer's answer and one subtree per child, and no cell is
    * expanded twice along a branch. */
  function Build(trace: Task -> Traced, universe: set<Task>, task: Task, path: set<Task>): (r: Tree)
    requires Closed(trace, universe)
    ensures r.task == task && (r.Cut? <==> task in path)
    ensures r.Node? ==> r.traced == trace(task) && |r.kids| == |Children(trace, task)|
    ensures Branches(r, path)
    decreases |(universe + {task}) - path|
  {
    if task in path then Cut(task)
    else
      var deps := Children(trace, task);
      ChildrenInUniverse(trace, universe, task);
      Node(task, trace(task),
           seq(|deps|, i requires 0 <= i < |deps| =>
             MeasureDrops(universe, task, deps[i], path);
             Build(trace, universe, deps[i], path + {task})))
  }

  /** A walked cell has one subtree per child. */
  lemma KidsCount(trace: Task -> Traced, universe: set<Task>, task: Task, path: set<Task>)
    requires Closed(trace, universe) && task !in path
    ensures |Build(trace, universe, task, path).kids| == |Children(trace, task)|
  {
  }

  /** The `i`-th subtree is the walk of the `i`-th child with the path
    * extended by the cell. */
  lemma KidAt(trace: Task -> Traced, universe: set<Task>, task: Task, path: set<Task>, i: nat)
    requires Closed(trace, universe) && task !in path && i < |Children(trace, task)|
    ensures Build(trace, universe, task, path).kids[i] == Build(trace, universe, Children(trace, task)[i], path + {task})
  {
  }

  /** A cell already on the branch is cut off: it is not traced, it
    * registers nothing and prints the one circular-reference line. */
  lemma CycleCutsOff(trace: Task -> Traced, universe: set<Task>, task: Task, path: set<Task>,
                     mode: DisplayMode, prefix: string, parent: Option<Task>, reg: seq<Task>)
    requires Closed(trace, universe) && task in path
    ensures Build(trace, universe, task, path) == Cut(task)
    ensures Register(reg, Build(trace, universe, task, path)) == reg
    ensures Render(mode, prefix, parent, Build(trace, universe, task, path)) == [CycleLine(prefix, task)]
  {
  }

  /** No cell repeats along a branch: a cell is expanded only when it is not
    * on the path above it, and cut off exactly when it is. */
  predicate Branches(t: Tree, path: set<Task>)
    decreases t
  {
    match t
    case Cut(task) => task in path
    case Node(task, _, kids) =>
      task !in path && forall k :: 0 <= k < |kids| ==> Branches(kids[k], path + {task})
  }

  /** A cell off the path is traced and its children are walked in formula
    * order, each with the path extended by the cell; a cell on the path is
    * cut off without being traced. */
  lemma BuildChildren(trace: Task -> Traced, universe: set<Task>, task: Task, path: set<Task>)
    requires Closed(trace, universe)
    ensures var t := Build(trace, universe, task, path);
      && t.task == task
      && (task in path <==> t.Cut?)
      && (t.Node? ==>
            && t.traced == trace(task)
            && |t.kids| == |Children(trace, task)|
            && forall k :: 0 <= k < |t.kids| ==>
                 t.kids[k] == Build(trace, universe, Children(trace, task)[k], path + {task}))
  {
  }

  // ----- the report -----

  /** The report after registering `x`: appended unless already there. */
  function Add(reg: seq<Task>, x: Task): seq<Task> {
    if x in reg then reg else reg + [x]
  }

  /** The report after registering each of `xs` in turn. */
  function AddNew(reg: seq<Task>, xs: seq<Task>): seq<Task>
    decreases |xs|
  {
    if |xs| == 0 then reg else AddNew(Add(reg, xs[0]), xs[1..])
  }

  /** The cells expanded by a walk, in the order they are met. */
  function Preorder(t: Tree): seq<Task>
    decreases t
  {
    match t
    case Cut(_) => []
    case Node(task, _, kids) => [task] + PreorderKids(kids, |kids|)
  }

  /** The cells expanded under the first `n` children. */
  function PreorderKids(kids: seq<Tree>, n: nat): seq<Task>
    requires n <= |kids|
    decreases kids, n
  {
    if n == 0 then [] else PreorderKids(kids, n - 1) + Preorder(kids[n - 1])
  }

  /** The report list after a walk, registering as the walk does: the old
    * report stays in front and no cell is listed twice. */
  function Register(reg: seq<Task>, t: Tree): seq<Task>
    decreases t
  {
    match t
    case Cut(_) => reg
    case Node(task, _, kids) => RegisterKids(Add(reg, task), kids, |kids|)
  }

  /** The report list after walking the first `n` children. */
  function RegisterKids(reg: seq<Task>, kids: seq<Tree>, n: nat): seq<Task>
    requires n <= |kids|
    decreases kids, n
  {
    if n == 0 then reg else Register(RegisterKids(reg, kids, n - 1), kids[n - 1])
  }

  /** Registering only appends to the report, and keeps a report without
    * duplicates free of them. */
  lemma {:induction false} RegisterGrows(reg: seq<Task>, t: Tree)
    ensures reg <= Register(reg, t)
    ensures NoDup(reg) ==> NoDup(Register(reg, t))
    decreases t
  {
    match t
    case Cut(_) =>
    case Node(task, _, kids) =>
      RegisterKidsGrows(Add(reg, task), kids, |kids|);
  }

  /** Registering the first `n` children only appends, without duplicates. */
  lemma {:induction false} RegisterKidsGrows(reg: seq<Task>, kids: seq<Tree>, n: nat)
    requires n <= |kids|
    ensures reg <= RegisterKids(reg, kids, n)
    ensures NoDup(reg) ==> NoDup(RegisterKids(reg, kids, n))
    decreases kids, n
  {
    if n > 0 {
      RegisterKidsGrows(reg, kids, n - 1);
      RegisterGrows(RegisterKids(reg, kids, n - 1), kids[n - 1]);
    }
  }

  /** Registering two lists is registering their concatenation. */
  lemma {:induction false} AddNewAppend(reg: seq<Task>, xs: seq<Task>, ys: seq<Task>)
    ensures AddNew(reg, xs + ys) == AddNew(AddNew(reg, xs), ys)
    decreases |xs|
  {
    if |xs| > 0 {
      assert (xs + ys)[1..] == xs[1..] + ys;
      AddNewAppend(Add(reg, xs[0]), xs[1..], ys);
    } else {
      assert xs + ys == ys;
    }
  }

  /** The report is the first occurrences of the expanded cells, in the
    * order they are met. */
  lemma {:induction false} RegisterIsAddNew(reg: seq<Task>, t: Tree)
    ensures Register(reg, t) == AddNew(reg, Preorder(t))
    decreases t
  {
    match t
    case Cut(_) =>
    case Node(task, _, kids) =>
      RegisterKidsIsAddNew(Add(reg, task), kids, |kids|);
      var rest := PreorderKids(kids, |kids|);
      assert ([task] + rest)[1..] == rest;
  }

  /** The same for the first `n` children. */
  lemma {:induction false} RegisterKidsIsAddNew(reg: seq<Task>, kids: seq<Tree>, n: nat)
    requires n <= |kids|
    ensures RegisterKids(reg, kids, n) == AddNew(reg, PreorderKids(kids, n))
    decreases kids, n
  {
    if n > 0 {
      RegisterKidsIsAddNew(reg, kids, n - 1);
      RegisterIsAddNew(RegisterKids(reg, kids, n - 1), kids[n - 1]);
      AddNewAppend(reg, PreorderKids(kids, n - 1), Preorder(kids[n - 1]));
    }
  }

  /** No task occurs twice. */
  predicate NoDup(s: seq<Task>) {
    forall i, j :: 0 <= i < j < |s| ==> s[i] != s[j]
  }

  /** The tasks of a list. */
  function Elements(s: seq<Task>): set<Task> {
    set x | x in s
  }

  /** Registering keeps what was there in front. */
  lemma {:induction false} AddNewKeeps(reg: seq<Task>, xs: seq<Task>)
    ensures |reg| <= |AddNew(reg, xs)| && AddNew(reg, xs)[..|reg|] == reg
    decreases |xs|
  {
    if |xs| > 0 {
      var next := Add(reg, xs[0]);
      AddNewKeeps(next, xs[1..]);
      assert next[..|reg|] == reg;
      assert AddNew(reg, xs)[..|reg|] == AddNew(reg, xs)[..|next|][..|reg|];
    }
  }

  /** Registering ends with exactly the tasks registered before or since. */
  lemma {:induction false} AddNewElements(reg: seq<Task>, xs: seq<Task>)
    ensures Elements(AddNew(reg, xs)) == Elements(reg) + Elements(xs)
    decreases |xs|
  {
    if |xs| > 0 {
      var next := Add(reg, xs[0]);
      AddNewElements(next, xs[1..]);
      assert xs == [xs[0]] + xs[1..];
      assert Elements(xs) == {xs[0]} + Elements(xs[1..]);
      assert Elements(next) == Elements(reg) + {xs[0]};
    }
  }

  /** Registering never adds a task twice. */
  lemma {:induction false} AddNewNoDup(reg: seq<Task>, xs: seq<Task>)
    requires NoDup(reg)
    ensures NoDup(AddNew(reg, xs))
    decreases |xs|
  {
    if |xs| > 0 {
      AddNewNoDup(Add(reg, xs[0]), xs[1..]);
    }
  }

  /** The three facts together. */
  lemma AddNewFacts(reg: seq<Task>, xs: seq<Task>)
    ensures var r := AddNew(reg, xs);
      && |reg| <= |r| && r[..|reg|] == reg
      && Elements(r) == Elements(reg) + Elements(xs)
      && (NoDup(reg) ==> NoDup(r))
  {
    AddNewKeeps(reg, xs);
    AddNewElements(reg, xs);
    if NoDup(reg) {
      AddNewNoDup(reg, xs);
    }
  }

  /** The registry keeps the report's order: the first time each new task
    * is met decides its place. */
  function FirstIndex(xs: seq<Task>, x: Task): (r: nat)
    requires x in xs
    ensures r < |xs| && xs[r] == x && x !in xs[..r]
  {
    if xs[0] == x then 0 else 1 + FirstIndex(xs[1..], x)
  }

  /** Tasks added by registering `xs` stand in the order of their first
    * occurrence in `xs`. */
  lemma {:induction false} AddNewOrder(reg: seq<Task>, xs: seq<Task>, i: nat, j: nat)
    requires NoDup(reg)
    requires |reg| <= i < j < |AddNew(reg, xs)|
    ensures AddNew(reg, xs)[i] in xs && AddNew(reg, xs)[j] in xs
    ensures FirstIndex(xs, AddNew(reg, xs)[i]) < FirstIndex(xs, AddNew(reg, xs)[j])
    decreases |xs|
  {
    var r := AddNew(reg, xs);
    AddNewFacts(reg, xs);
    if |xs| == 0 {
      assert false;
    } else {
      var x := xs[0];
      var next := Add(reg, x);
      AddNewFacts(next, xs[1..]);
      assert r == AddNew(next, xs[1..]);
      assert NoDup(next);
      assert r[i] in Elements(r) && r[j] in Elements(r);
      assert r[i] !in reg && r[j] !in reg by {
        forall k | 0 <= k < |reg| ensures reg[k] != r[i] && reg[k] != r[j] {
          assert r[k] == reg[k];
        }
      }
      if x in reg {
        AddNewOrder(next, xs[1..], i, j);
        assert r[i] != x && r[j] != x;
        assert xs[1..][FirstIndex(xs[1..], r[i])] == r[i];
      } else {
        assert r[|reg|] == x by { assert r[..|next|] == next; }
        assert r[j] != x;
        if i == |reg| {
          assert r[i] == x;
          assert r[j] in xs[1..];
        } else {
          AddNewOrder(next, xs[1..], i, j);
          assert r[i] != x;
        }
      }
    }
  }

  // ----- the printed lines -----

  /** The lines printed by a walk drawn under `prefix`: the first one pins
    * a cell under the prefix, and every expanded cell prints at least one
    * line. */
  function Render(mode: DisplayMode, prefix: string, parent: Option<Task>, t: Tree): seq<string>
    decreases t
  {
    match t
    case Cut(task) => [CycleLine(prefix, task)]
    case Node(task, r, kids) =>
      NodeLines(prefix, Header(mode, task, parent), r) + RenderKids(mode, prefix, task, kids, |kids|)
  }

  /** The lines of the first `n` children of `parent`. */
  function RenderKids(mode: DisplayMode, prefix: string, parent: Task, kids: seq<Tree>, n: nat): seq<string>
    requires n <= |kids|
    decreases kids, n
  {
    if n == 0 then []
    else
      RenderKids(mode, prefix, parent, kids, n - 1)
      + Render(mode, ChildPrefix(prefix, n - 1 == |kids| - 1), Some(parent), kids[n - 1])
  }

  /** The rendering of a walk starts with the pin under the prefix, and it
    * prints at least one line per visited cell. */
  lemma {:induction false} RenderShape(mode: DisplayMode, prefix: string, parent: Option<Task>, t: Tree)
    ensures var r := Render(mode, prefix, parent, t);
      |r| > 0 && prefix + "📍 " <= r[0] && |r| >= |Preorder(t)|
    decreases t
  {
    match t
    case Cut(task) =>
    case Node(task, r, kids) =>
      NodeLinesText(prefix, Header(mode, task, parent), r);
      RenderKidsSize(mode, prefix, task, kids, |kids|);
  }

  /** The children print at least one line per visited cell. */
  lemma {:induction false} RenderKidsSize(mode: DisplayMode, prefix: string, parent: Task, kids: seq<Tree>, n: nat)
    requires n <= |kids|
    ensures |RenderKids(mode, prefix, parent, kids, n)| >= |PreorderKids(kids, n)|
    decreases kids, n
  {
    if n > 0 {
      RenderKidsSize(mode, prefix, parent, kids, n - 1);
      RenderShape(mode, ChildPrefix(prefix, n - 1 == |kids| - 1), Some(parent), kids[n - 1]);
    }
  }

  /** One more child adds its lines after those of the earlier ones. */
  lemma RenderKidsStep(mode: DisplayMode, prefix: string, parent: Task, kids: seq<Tree>, i: nat)
    requires i < |kids|
    ensures RenderKids(mode, prefix, parent, kids, i + 1)
         == RenderKids(mode, prefix, parent, kids, i) + Render(mode, ChildPrefix(prefix, i == |kids| - 1), Some(parent), kids[i])
  {
  }

  /** One more child registers its walk after the earlier ones. */
  lemma RegisterKidsStep(reg: seq<Task>, kids: seq<Tree>, i: nat)
    requires i < |kids|
    ensures RegisterKids(reg, kids, i + 1) == Register(RegisterKids(reg, kids, i), kids[i])
  {
  }

  /** `RenderKidsStep` in the shape the loop of `ProcessChildren` holds
    * its lines. */
  lemma KidsLinesStep(mode: DisplayMode, prefix: string, parent: Task, kids: seq<Tree>, i: nat,
                      lines0: seq<string>, before: seq<string>, after: seq<string>)
    requires i < |kids|
    requires before == lines0 + RenderKids(mode, prefix, parent, kids, i)
    requires after == before + Render(mode, ChildPrefix(prefix, i == |kids| - 1), Some(parent), kids[i])
    ensures after == lines0 + RenderKids(mode, prefix, parent, kids, i + 1)
  {
    RenderKidsStep(mode, prefix, parent, kids, i);
  }

  /** `RegisterKidsStep` in the shape the loop of `ProcessChildren` holds
    * its report. */
  lemma KidsReportStep(kids: seq<Tree>, i: nat, report0: seq<Task>, before: seq<Task>, after: seq<Task>)
    requires i < |kids|
    requires before == RegisterKids(report0, kids, i)
    requires after == Register(before, kids[i])
    ensures after == RegisterKids(report0, kids, i + 1)
  {
    RegisterKidsStep(report0, kids, i);
  }

  /** A node prints its own lines, then its children's; it registers
    * itself, then its children's walks. */
  lemma NodeStep(mode: DisplayMode, prefix: string, parent: Option<Task>, t: Tree,
                 lines0: seq<string>, linesNode: seq<string>, after: seq<string>,
                 report0: seq<Task>, reportNode: seq<Task>, reportAfter: seq<Task>)
    requires t.Node?
    requires linesNode == lines0 + NodeLines(prefix, Header(mode, t.task, parent), t.traced)
    requires after == linesNode + RenderKids(mode, prefix, t.task, t.kids, |t.kids|)
    requires reportNode == Add(report0, t.task)
    requires reportAfter == RegisterKids(reportNode, t.kids, |t.kids|)
    ensures after == lines0 + Render(mode, prefix, parent, t)
    ensures reportAfter == Register(report0, t)
  {
  }

  // ----- a scan -----

  /** The report of a walk from an empty path starts with its first cell. */
  lemma WalkReportStartsAtRoot(trace: Task -> Traced, universe: set<Task>, root: Task)
    requires Closed(trace, universe)
    ensures var reg := Register([], Build(trace, universe, root, {}));
      |reg| > 0 && reg[0] == root
  {
    var t := Build(trace, universe, root, {});
    BuildChildren(trace, universe, root, {});
    var pre := Preorder(t);
    RegisterIsAddNew([], t);
    assert pre[0] == root;
    assert pre == [root] + pre[1..];
    assert Add([], root) == [root];
    assert AddNew([], pre) == AddNew([root], pre[1..]);
    AddNewKeeps([root], pre[1..]);
  }

  /** The report of a walk from an empty path holds no task twice and holds
    * exactly the expanded cells, in the order each is first met. */
  lemma WalkReportFacts(trace: Task -> Traced, universe: set<Task>, root: Task)
    requires Closed(trace, universe)
    ensures var t := Build(trace, universe, root, {});
      var reg := Register([], t);
      var pre := Preorder(t);
      && NoDup(reg)
      && Elements(reg) == Elements(pre)
      && forall i, j :: 0 <= i < j < |reg| ==>
           reg[i] in pre && reg[j] in pre && FirstIndex(pre, reg[i]) < FirstIndex(pre, reg[j])
  {
    var t := Build(trace, universe, root, {});
    var pre := Preorder(t);
    RegisterIsAddNew([], t);
    AddNewFacts([], pre);
    var reg := AddNew([], pre);
    assert Elements([]) == {};
    forall i, j | 0 <= i < j < |reg|
      ensures reg[i] in pre && reg[j] in pre && FirstIndex(pre, reg[i]) < FirstIndex(pre, reg[j])
    {
      AddNewOrder([], pre, i, j);
    }
  }

  /** `trace_dependency_vine` with the working path bound. */
  function Tracing(env: Env, wp: string): Task -> Traced {
    t => Resolve(env, wp, t)
  }

  /** The resolver only ever names cells of the workbooks' candidates. */
  lemma TracingClosed(env: Env, wp: string)
    ensures Closed(Tracing(env, wp), Candidates(env, wp))
  {
    forall t, d | d in Tracing(env, wp)(t).deps ensures d in Candidates(env, wp) {
      DepsAreCandidates(env, wp, t);
    }
  }

  /** The walk of a scan: from the selected cell, with its folder as the
    * working path. */
  function ScanTree(env: Env, root: Task): Tree {
    var wp := Dirname(root.file);
    TracingClosed(env, wp);
    Build(Tracing(env, wp), Candidates(env, wp), root, {})
  }

  // ----- the tracer -----

  /** One scan in progress: the shared report set and list, and the lines
    * printed so far. */
  class Tracer {
    /** the `trace_dependency_vine` argument, with its working path */
    const trace: Task -> Traced
    /** the cells the tracer can name */
    ghost const universe: set<Task>
    const mode: DisplayMode
    /** what has been printed */
    var lines: seq<string>
    /** `unique_nodes_for_report` */
    var seen: set<Task>
    /** `final_dependency_map` */
    var report: seq<Task>

    /** The set holds exactly the tasks of the list. */
    ghost predicate Valid()
      reads this
    {
      Closed(trace, universe) && seen == Elements(report)
    }

    constructor (trace: Task -> Traced, ghost universe: set<Task>, mode: DisplayMode)
      requires Closed(trace, universe)
      ensures Valid()
      ensures this.trace == trace && this.universe == universe && this.mode == mode
      ensures lines == [] && seen == {} && report == []
    {
      this.trace := trace;
      this.universe := universe;
      this.mode := mode;
      lines := [];
      seen := {};
      report := [];
    }

    /** `process_task_recursively(task, prefix, current_path, parent_context, ...)`:
      * prints the walk from `task` and registers what it expands. */
    method Process(task: Task, prefix: string, parent: Option<Task>, path: set<Task>)
      requires Valid()
      modifies this
      decreases |(universe + {task}) - path|, 1
      ensures Valid()
      ensures lines == old(lines) + Render(mode, prefix, parent, Build(trace, universe, task, path))
      ensures report == Register(old(report), Build(trace, universe, task, path))
    {
      BuildChildren(trace, universe, task, path);
      ghost var t := Build(trace, universe, task, path);
      if task in path {
        lines := lines + [CycleLine(prefix, task)];
        return;
      }
      ghost var lines0 := lines;
      ghost var report0 := report;
      if task !in seen {
        seen := seen + {task};
        report := report + [task];
      }
      var r := trace(task);
      lines := lines + NodeLines(prefix, Header(mode, task, parent), r);
      var ordered := SortDependenciesByFormulaOrder(r.deps, FormulaForOrder(r));
      ghost var linesNode := lines;
      ghost var reportNode := report;
      ProcessChildren(task, prefix, path, ordered);
      NodeStep(mode, prefix, parent, t, lines0, linesNode, lines, report0, reportNode, report);
    }

    /** The loop over the ordered children, each walked under its own
      * prefix with a copy of the path that holds `task`. */
    method ProcessChildren(task: Task, prefix: string, path: set<Task>, ordered: seq<Task>)
      requires Valid()
      requires task !in path && ordered == Children(trace, task)
      modifies this
      decreases |(universe + {task}) - path|, 0
      ensures Valid()
      ensures var kids := Build(trace, universe, task, path).kids;
        lines == old(lines) + RenderKids(mode, prefix, task, kids, |kids|)
      ensures var kids := Build(trace, universe, task, path).kids;
        report == RegisterKids(old(report), kids, |kids|)
    {
      ghost var kids := Build(trace, universe, task, path).kids;
      KidsCount(trace, universe, task, path);
      var current := path + {task};
      ChildrenInUniverse(trace, universe, task);
      var i := 0;
      while i < |ordered|
        invariant 0 <= i <= |ordered|
        invariant Valid()
        invariant lines == old(lines) + RenderKids(mode, prefix, task, kids, i)
        invariant report == RegisterKids(old(report), kids, i)
      {
        var isLast := i == |ordered| - 1;
        MeasureDrops(universe, task, ordered[i], path);
        ghost var linesBefore := lines;
        ghost var reportBefore := report;
        Process(ordered[i], ChildPrefix(prefix, isLast), Some(task), current);
        KidAt(trace, universe, task, path, i);
        KidsLinesStep(mode, prefix, task, kids, i, old(lines), linesBefore, lines);
        KidsReportStep(kids, i, old(report), reportBefore, report);
        i := i + 1;
      }
    }
  }

  /** `run_scan_and_show` without its window: a fresh report, the walk from
    * the selected cell with its folder as working path, then the workbook
    * cache cleared. The cache's loader is the one the environment describes. */
  method Scan(cache: Cache.WorkbookCache, env: Env, mode: DisplayMode, root: Task)
    returns (lines: seq<string>, report: seq<Task>)
    requires cache.Valid()
    requires forall p, d, u :: cache.load(p, d, u) == LoadBook(env, p, d, u)
    modifies cache
    ensures lines == Render(mode, "", None, ScanTree(env, root))
    ensures report == Register([], ScanTree(env, root))
    ensures cache.Valid() && cache.entries == map[]
  {
    var wp := Dirname(root.file);
    TracingClosed(env, wp);
    var tracer := new Tracer(Tracing(env, wp), Candidates(env, wp), mode);
    tracer.Process(root, "", None, {});
    lines := tracer.lines;
    report := tracer.report;
    cache.Clear();
  }
}
