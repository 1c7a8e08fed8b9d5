/**
 * Rebuilding external references in formula text (dependency_scanner.py,
 * lines 264-285). openpyxl keeps a reference into another workbook as a
 * numbered placeholder `[k]Sheet!A1`; when the workbook has external links the
 * scanner numbers the distinct bracketed file names among the cell's compiled
 * inputs in sorted order and rewrites every placeholder whose number has a
 * file into `'dir\[file]Sheet'!A1`.
 */
module Placeholders {
  import opened Wrappers
  import opened Text
  import opened Paths

  // ----- the bracketed file name of an input (`.*\[(.*?)\]`, line 265) -----

  /** The `[` at `x` is closed by a later `]`. */
  predicate ClosedOpen(s: string, x: nat) {
    x < |s| && s[x] == '[' && IndexOf(s, ']', x + 1).Some?
  }

  /** The last closed `[` below `n`: where the greedy `.*` stops. */
  function LastClosedOpen(s: string, n: nat): (r: Option<nat>)
    ensures r.Some? ==> r.value < n && ClosedOpen(s, r.value)
    decreases n
  {
    if n == 0 then None
    else if ClosedOpen(s, n - 1) then Some(n - 1)
    else LastClosedOpen(s, n - 1)
  }

  lemma {:induction false} LastClosedOpenIs(s: string, n: nat, x: nat)
    requires x < n && ClosedOpen(s, x)
    requires forall y :: x < y < n ==> !ClosedOpen(s, y)
    ensures LastClosedOpen(s, n) == Some(x)
    decreases n
  {
    if n - 1 != x {
      LastClosedOpenIs(s, n - 1, x);
    }
  }

  /** `group(1)` of `re.match(r".*\[(.*?)\]", ref)`: the text between the last
    * closed `[` and the first `]` after it. */
  function BracketName(ref: string): (r: Option<string>)
    ensures r.Some? ==> ']' !in r.value
  {
    match LastClosedOpen(ref, |ref|)
    case None => None
    case Some(x) =>
      var j := IndexOf(ref, ']', x + 1).value;
      assert forall y :: x + 1 <= y < j ==> ref[y] != ']';
      Some(ref[x + 1..j])
  }

  /** The name of a printed external reference `'d[f]rest` is its file `f`,
    * when no `[` follows the one before `f`. */
  lemma BracketNameOfPrinted(d: string, f: string, rest: string)
    requires '[' !in f && ']' !in f && '[' !in rest
    ensures BracketName("'" + d + "[" + f + "]" + rest) == Some(f)
  {
    var s := "'" + d + "[" + f + "]" + rest;
    var o := 1 + |d|;
    var j := o + 1 + |f|;
    assert s[o] == '[' && s[j] == ']';
    assert s[o + 1..j] == f;
    assert s[o + 1..] == f + "]" + rest;
    forall y | o + 1 <= y < j ensures s[y] != ']' {
      assert s[y] == s[o + 1..j][y - o - 1];
    }
    IndexOfIs(s, ']', o + 1, j);
    forall y | o < y < |s| ensures !ClosedOpen(s, y) {
      assert s[y] == s[o + 1..][y - o - 1];
    }
    LastClosedOpenIs(s, |s|, o);
  }

  /** The names of the inputs that have one, in input order. */
  function BracketNames(refs: seq<string>): (r: seq<string>)
    ensures forall y :: y in r <==> exists k :: 0 <= k < |refs| && BracketName(refs[k]) == Some(y)
  {
    if |refs| == 0 then []
    else
      var rest := BracketNames(refs[1..]);
      assert forall k :: 0 < k < |refs| ==> refs[k] == refs[1..][k - 1];
      assert forall y :: (exists k :: 0 <= k < |refs[1..]| && BracketName(refs[1..][k]) == Some(y))
                         ==> exists k :: 0 <= k < |refs| && BracketName(refs[k]) == Some(y) by {
        forall y | exists k :: 0 <= k < |refs[1..]| && BracketName(refs[1..][k]) == Some(y)
          ensures exists k :: 0 <= k < |refs| && BracketName(refs[k]) == Some(y)
        {
          var k :| 0 <= k < |refs[1..]| && BracketName(refs[1..][k]) == Some(y);
          assert BracketName(refs[k + 1]) == Some(y);
        }
      }
      match BracketName(refs[0])
      case None => rest
      case Some(n) => [n] + rest
  }

  /** `sorted(list({names}))`: the distinct names in code-point order. */
  function ExternalFiles(refs: seq<string>): (r: seq<string>)
    ensures StrictlySorted(r)
    ensures forall y :: y in r <==> exists k :: 0 <= k < |refs| && BracketName(refs[k]) == Some(y)
  {
    SortedDistinct(BracketNames(refs))
  }

  /** `index_to_path_map` as a list: placeholder number `k` maps to the entry
    * at `k - 1`, the working directory joined with the `k`-th file. */
  function PathTable(wp: string, refs: seq<string>): (r: seq<string>)
    ensures |r| == |ExternalFiles(refs)|
    ensures forall k :: 0 <= k < |r| ==> r[k] == Join(wp, ExternalFiles(refs)[k])
  {
    var files := ExternalFiles(refs);
    seq(|files|, k requires 0 <= k < |files| => Join(wp, files[k]))
  }

  // ----- the placeholder pattern (line 285) -----

  /** Characters the lookahead `[,)\s*+\-\/\^=<>:&]` accepts. */
  predicate FollowChar(c: char) {
    c in {',', ')', '*', '+', '-', '/', '^', '=', '<', '>', ':', '&'} || IsSpace(c)
  }

  /** Characters of the sheet-qualified tail `[\$A-Z0-9:]`. */
  predicate TailChar(c: char) {
    c == '$' || ('A' <= c <= 'Z') || ('0' <= c <= '9') || c == ':'
  }

  /** The lookahead `(?=[,)\s*+\-\/\^=<>:&]|$)` holds at `q`. */
  predicate FollowAt(s: string, q: nat) {
    q == |s| || (q < |s| && FollowChar(s[q]))
  }

  /** End of the run of digits from `i`. */
  function DigitsEnd(s: string, i: nat): (e: nat)
    requires i <= |s|
    ensures i <= e <= |s| && AllDigits(s[i..e]) && (e < |s| ==> !IsDigit(s[e]))
    decreases |s| - i
  {
    if i < |s| && IsDigit(s[i]) then
      var e := DigitsEnd(s, i + 1);
      assert s[i..e] == [s[i]] + s[i + 1..e];
      e
    else i
  }

  /** End of the run `[^\]!]*` from `i`. */
  function PartEnd(s: string, i: nat): (e: nat)
    requires i <= |s|
    ensures i <= e <= |s| && ']' !in s[i..e] && '!' !in s[i..e]
    ensures e < |s| ==> s[e] == ']' || s[e] == '!'
    decreases |s| - i
  {
    if i < |s| && s[i] != ']' && s[i] != '!' then PartEnd(s, i + 1) else i
  }

  /** End of the run `[\$A-Z0-9:]*` from `i`. */
  function TailEnd(s: string, i: nat): (e: nat)
    requires i <= |s|
    ensures i <= e <= |s| && (forall x :: i <= x < e ==> TailChar(s[x]))
    ensures e < |s| ==> !TailChar(s[e])
    decreases |s| - i
  {
    if i < |s| && TailChar(s[i]) then TailEnd(s, i + 1) else i
  }

  /** The largest `q` with `lo <= q <= hi` at which the lookahead holds: the
    * first success when a greedy run gives back one character at a time. */
  function LastFollow(s: string, lo: nat, hi: nat): (r: Option<nat>)
    ensures r.Some? ==> lo <= r.value <= hi && FollowAt(s, r.value)
    decreases hi
  {
    if hi < lo then None
    else if FollowAt(s, hi) then Some(hi)
    else if hi == 0 then None
    else LastFollow(s, lo, hi - 1)
  }

  /** `LastFollow` finds the largest position in range where the lookahead
    * holds. */
  lemma {:induction false} LastFollowIs(s: string, lo: nat, hi: nat, q: nat)
    requires lo <= q <= hi && FollowAt(s, q)
    requires forall x :: q < x <= hi ==> !FollowAt(s, x)
    ensures LastFollow(s, lo, hi) == Some(q)
    decreases hi
  {
    if hi != q {
      LastFollowIs(s, lo, hi - 1, q);
    }
  }

  /** With no position in range where the lookahead holds, `LastFollow`
    * finds none. */
  lemma {:induction false} LastFollowNone(s: string, lo: nat, hi: nat)
    requires forall x :: lo <= x <= hi ==> !FollowAt(s, x)
    ensures LastFollow(s, lo, hi) == None
    decreases hi
  {
    if lo <= hi && hi != 0 {
      LastFollowNone(s, lo, hi - 1);
    }
  }

  /** One match: the placeholder number, group 2, and where the match ends. */
  datatype Placeholder = Placeholder(index: nat, part: string, end: nat)

  /** The match of `\[(\d+)\]([^\]!]+(?:![\$A-Z0-9:]+)?)(?=...|$)` starting at
    * `p`: a `[`, the greedy digit run, and a `]`. */
  function PlaceholderAt(s: string, p: nat): (r: Option<Placeholder>)
    ensures r.Some? ==> p < r.value.end <= |s| && FollowAt(s, r.value.end)
    ensures r.Some? ==> s[p] == '[' && |r.value.part| > 0 && ']' !in r.value.part
  {
    if p >= |s| || s[p] != '[' then None
    else
      var d := DigitsEnd(s, p + 1);
      if d == p + 1 || d >= |s| || s[d] != ']' then None
      else PlaceholderAfter(s, p, d)
  }

  /** The rest of the match once `[digits]` spans `s[p..d + 1]`. */
  function PlaceholderAfter(s: string, p: nat, d: nat): (r: Option<Placeholder>)
    requires p < d < |s| && AllDigits(s[p + 1..d])
    ensures r.Some? ==> d < r.value.end <= |s| && FollowAt(s, r.value.end)
    ensures r.Some? ==> |r.value.part| > 0 && ']' !in r.value.part
  {
    match PartMatch(s, d + 1)
    case None => None
    case Some(end) => Some(Placeholder(DigitsValue(s[p + 1..d]), s[d + 1..end], end))
  }

  /** Where group 2 starting at `a` ends, in the regex engine's backtracking
    * order: the longest part run, first with the longest `!` tail, then
    * without a tail, then shorter runs. */
  function PartMatch(s: string, a: nat): (r: Option<nat>)
    requires a <= |s|
    ensures r.Some? ==> a < r.value <= |s| && FollowAt(s, r.value) && ']' !in s[a..r.value]
  {
    var e := PartEnd(s, a);
    if e == a then None
    else
      var tailed := if e < |s| && s[e] == '!' then LastFollow(s, e + 2, TailEnd(s, e + 1)) else None;
      if tailed.Some? then
        NoCloseInTail(s, a, e, tailed.value);
        tailed
      else
        var r := LastFollow(s, a + 1, e);
        assert r.Some? ==> ']' !in s[a..r.value] by {
          if r.Some? { assert s[a..r.value] <= s[a..e]; }
        }
        r
  }

  lemma NoCloseInTail(s: string, a: nat, e: nat, t: nat)
    requires a <= e < t <= |s| && ']' !in s[a..e] && s[e] == '!'
    requires TailEnd(s, e + 1) >= t
    ensures ']' !in s[a..t]
  {
    forall x | a <= x < t ensures s[x] != ']' {
      if x < e { assert s[x] == s[a..e][x - a]; }
      else if x > e { assert TailChar(s[x]); }
    }
  }

  /** What follows the file name in a rewritten placeholder: the sheet,
    * the closing quote, and the cell after the `!` when there is one. */
  function PartRest(part: string): string {
    match IndexOf(part, '!', 0)
    case Some(x) => part[..x] + "'!" + part[x + 1..]
    case None => part + "'"
  }

  /** The quoted reference a numbered placeholder is rewritten to: the
    * directory and base name of the file's path, then the rest. */
  function Rewritten(fp: string, part: string): string {
    match IndexOf(part, '!', 0)
    case Some(x) => "'" + Dirname(fp) + [Sep] + "[" + Basename(fp) + "]" + part[..x] + "'!" + part[x + 1..]
    case None => "'" + Dirname(fp) + [Sep] + "[" + Basename(fp) + "]" + part + "'"
  }

  /** A rewritten placeholder names the file it was given in brackets. */
  lemma ReplacedNamesFile(fp: string, part: string)
    ensures '[' !in Basename(fp) && ']' !in Basename(fp) && '[' !in part ==>
      BracketName(Rewritten(fp, part)) == Some(Basename(fp))
  {
    var dir, f := Dirname(fp), Basename(fp);
    if '[' !in f && ']' !in f && '[' !in part {
      var rest := PartRest(part);
      PartRestNoOpen(part);
      BracketNameOfPrinted(dir + [Sep], f, rest);
      RewrittenSplit(fp, part);
      assert "'" + dir + [Sep] == "'" + (dir + [Sep]);
    }
  }

  /** The rewritten reference is the quoted directory and bracketed file,
    * then the rest built from the part. */
  lemma RewrittenSplit(fp: string, part: string)
    ensures Rewritten(fp, part) == "'" + Dirname(fp) + [Sep] + "[" + Basename(fp) + "]" + PartRest(part)
  {
    var head := "'" + Dirname(fp) + [Sep] + "[" + Basename(fp) + "]";
    match IndexOf(part, '!', 0)
    case Some(x) =>
      assert head + part[..x] + "'!" + part[x + 1..] == head + (part[..x] + "'!" + part[x + 1..]);
    case None =>
      assert head + part + "'" == head + (part + "'");
  }

  /** The rewritten sheet part brings no `[` of its own. */
  lemma PartRestNoOpen(part: string)
    requires '[' !in part
    ensures '[' !in PartRest(part)
  {
    match IndexOf(part, '!', 0)
    case Some(x) =>
      assert forall c :: c in part[..x] ==> c in part;
      assert forall c :: c in part[x + 1..] ==> c in part;
    case None =>
  }

  /** `replacer`: the reference a placeholder stands for, or the match itself
    * when its number has no file (or the file's path is empty). The file's
    * base name is what the rewritten reference names in brackets. */
  function Replacement(whole: string, m: Placeholder, paths: seq<string>): (r: string)
    ensures !(1 <= m.index <= |paths| && paths[m.index - 1] != "") ==> r == whole
    ensures 1 <= m.index <= |paths| && paths[m.index - 1] != ""
            && '[' !in Basename(paths[m.index - 1]) && ']' !in Basename(paths[m.index - 1]) && '[' !in m.part
            ==> BracketName(r) == Some(Basename(paths[m.index - 1]))
  {
    if 1 <= m.index <= |paths| && paths[m.index - 1] != "" then
      var fp := paths[m.index - 1];
      ReplacedNamesFile(fp, m.part);
      Rewritten(fp, m.part)
    else whole
  }

  /** `re.sub` from position `p`: each match is replaced and the scan resumes
    * after it; other characters are copied. */
  function SubstituteFrom(s: string, paths: seq<string>, p: nat): string
    requires p <= |s|
    decreases |s| - p
  {
    if p == |s| then ""
    else match PlaceholderAt(s, p)
      case Some(m) => Replacement(s[p..m.end], m, paths) + SubstituteFrom(s, paths, m.end)
      case None => [s[p]] + SubstituteFrom(s, paths, p + 1)
  }

  /** The reconstructed formula: with no numbered files, or with no `[` to
    * start a placeholder, it is the formula unchanged. */
  function Reconstruct(formula: string, paths: seq<string>): (r: string)
    ensures paths == [] ==> r == formula
    ensures '[' !in formula ==> r == formula
  {
    SubstituteWithoutFiles(formula, 0);
    SubstituteWithoutOpen(formula, paths, 0);
    SubstituteFrom(formula, paths, 0)
  }

  /** Without a `[` nothing matches, so the text is copied. */
  lemma {:induction false} SubstituteWithoutOpen(s: string, paths: seq<string>, p: nat)
    requires p <= |s|
    ensures '[' !in s[p..] ==> SubstituteFrom(s, paths, p) == s[p..]
    decreases |s| - p
  {
    if p < |s| && '[' !in s[p..] {
      assert s[p] == s[p..][0];
      assert s[p..] == [s[p]] + s[p + 1..];
      SubstituteWithoutOpen(s, paths, p + 1);
    }
  }

  /** Without numbered files every placeholder is kept, so the formula is
    * unchanged. */
  lemma {:induction false} SubstituteWithoutFiles(s: string, p: nat)
    requires p <= |s|
    ensures SubstituteFrom(s, [], p) == s[p..]
    decreases |s| - p
  {
    if p < |s| {
      match PlaceholderAt(s, p)
      case Some(m) =>
        SubstituteWithoutFiles(s, m.end);
        assert s[p..] == s[p..m.end] + s[m.end..];
      case None =>
        SubstituteWithoutFiles(s, p + 1);
        assert s[p..] == [s[p]] + s[p + 1..];
    }
  }

  /** A placeholder whose part run stops at a `!` with a tail after which the
    * lookahead holds is matched up to the end of that tail. */
  lemma PlaceholderWithTail(s: string, p: nat, d: nat, e: nat, t: nat)
    requires p < |s| && s[p] == '[' && p + 1 < d < |s| && DigitsEnd(s, p + 1) == d && s[d] == ']'
    requires d + 1 < e < |s| && PartEnd(s, d + 1) == e && s[e] == '!'
    requires e + 2 <= t && TailEnd(s, e + 1) == t && FollowAt(s, t)
    ensures PlaceholderAt(s, p) == Some(Placeholder(DigitsValue(s[p + 1..d]), s[d + 1..t], t))
  {
    PartMatchWithTail(s, d + 1, e, t);
    PlaceholderFromPart(s, p, d, t);
  }

  lemma PartMatchWithTail(s: string, a: nat, e: nat, t: nat)
    requires a < e < |s| && PartEnd(s, a) == e && s[e] == '!'
    requires e + 2 <= t && TailEnd(s, e + 1) == t && FollowAt(s, t)
    ensures PartMatch(s, a) == Some(t)
  {
    LastFollowIs(s, e + 2, t, t);
  }

  lemma PlaceholderFromPart(s: string, p: nat, d: nat, t: nat)
    requires p < |s| && s[p] == '[' && p + 1 < d < |s| && DigitsEnd(s, p + 1) == d && s[d] == ']'
    requires PartMatch(s, d + 1) == Some(t)
    ensures PlaceholderAt(s, p) == Some(Placeholder(DigitsValue(s[p + 1..d]), s[d + 1..t], t))
  {
    assert PlaceholderAt(s, p) == PlaceholderAfter(s, p, d);
  }

  /** A placeholder `[k]Sheet!A1` at the start of `s` -- the digits of `k` in
    * `s[1..d]`, a sheet name without `]` or `!` in `s[d + 1..e]`, a `!` at
    * `e`, a cell in `s[e + 1..t]` -- followed by an operator, a space or the
    * end of the formula, is matched whole: number `k`, part `Sheet!A1`. */
  lemma PlaceholderOfSheetCell(s: string, k: nat, d: nat, e: nat, t: nat)
    requires 1 < d && d + 1 < e && e + 1 < t <= |s|
    requires s[0] == '[' && s[1..d] == NatToString(k) && s[d] == ']' && s[e] == '!'
    requires ']' !in s[d + 1..e] && '!' !in s[d + 1..e]
    requires forall x :: e < x < t ==> TailChar(s[x])
    requires t < |s| ==> FollowChar(s[t]) && !TailChar(s[t])
    ensures PlaceholderAt(s, 0) == Some(Placeholder(k, s[d + 1..t], t))
  {
    DigitsEndIs(s, 1, d);
    DigitsValueOfNatToString(k);
    PartEndIs(s, d + 1, e);
    TailEndIs(s, e + 1, t);
    PlaceholderWithTail(s, 0, d, e, t);
  }

  lemma {:induction false} DigitsEndIs(s: string, i: nat, e: nat)
    requires i <= e <= |s| && (e < |s| ==> !IsDigit(s[e])) && AllDigits(s[i..e])
    ensures DigitsEnd(s, i) == e
    decreases e - i
  {
    if i < e {
      assert s[i] == s[i..e][0];
      assert s[i + 1..e] == s[i..e][1..];
      DigitsEndIs(s, i + 1, e);
    }
  }

  lemma {:induction false} PartEndIs(s: string, i: nat, e: nat)
    requires i <= e <= |s| && (e < |s| ==> s[e] == ']' || s[e] == '!')
    requires ']' !in s[i..e] && '!' !in s[i..e]
    ensures PartEnd(s, i) == e
    decreases e - i
  {
    if i < e {
      assert s[i] == s[i..e][0];
      assert s[i + 1..e] == s[i..e][1..];
      PartEndIs(s, i + 1, e);
    }
  }

  lemma {:induction false} TailEndIs(s: string, i: nat, e: nat)
    requires i <= e <= |s| && (e < |s| ==> !TailChar(s[e]))
    requires forall x :: i <= x < e ==> TailChar(s[x])
    ensures TailEnd(s, i) == e
    decreases e - i
  {
    if i < e {
      TailEndIs(s, i + 1, e);
    }
  }

  /** A numbered placeholder for `Sheet!A1` becomes a quoted external
    * reference to the numbered file's directory and name. */
  lemma ReplaceSheetCell(m: Placeholder, sh: string, c: string, paths: seq<string>, whole: string)
    requires 1 <= m.index <= |paths| && paths[m.index - 1] != ""
    requires m.part == sh + "!" + c && '!' !in sh
    ensures var fp := paths[m.index - 1];
            Replacement(whole, m, paths)
              == "'" + Dirname(fp) + [Sep] + "[" + Basename(fp) + "]" + sh + "'!" + c
  {
    var fp := paths[m.index - 1];
    assert Replacement(whole, m, paths) == Rewritten(fp, m.part);
    FirstBang(sh, c);
  }

  /** A numbered placeholder without a `!` becomes a quoted workbook-and-sheet
    * reference. */
  lemma ReplaceSheetOnly(m: Placeholder, paths: seq<string>, whole: string)
    requires 1 <= m.index <= |paths| && paths[m.index - 1] != ""
    requires '!' !in m.part
    ensures var fp := paths[m.index - 1];
            Replacement(whole, m, paths)
              == "'" + Dirname(fp) + [Sep] + "[" + Basename(fp) + "]" + m.part + "'"
  {
    var fp := paths[m.index - 1];
    assert Replacement(whole, m, paths) == Rewritten(fp, m.part);
    assert IndexOf(m.part, '!', 0).None?;
  }

  /** `s` is one placeholder `[k]Sheet!A1`: the digits of `k` in `s[1..d]`, a
    * sheet name without `]` or `!` in `s[d + 1..e]`, a `!` at `e`, and a
    * non-empty cell in `s[e + 1..]`. */
  predicate SheetCellFormula(s: string, k: nat, d: nat, e: nat) {
    && 1 < d && d + 1 < e && e + 1 < |s|
    && s[0] == '[' && s[1..d] == NatToString(k) && s[d] == ']' && s[e] == '!'
    && ']' !in s[d + 1..e] && '!' !in s[d + 1..e]
    && (forall x :: e < x < |s| ==> TailChar(s[x]))
  }

  /** A formula that is exactly one placeholder `[k]Sheet!A1` whose number
    * has a file is reconstructed into the external reference it stands for. */
  lemma ReconstructSheetCell(s: string, k: nat, d: nat, e: nat, paths: seq<string>)
    requires SheetCellFormula(s, k, d, e)
    requires 1 <= k <= |paths| && paths[k - 1] != ""
    ensures var fp := paths[k - 1];
            Reconstruct(s, paths)
              == "'" + Dirname(fp) + [Sep] + "[" + Basename(fp) + "]" + s[d + 1..e] + "'!" + s[e + 1..]
  {
    ReconstructOneMatch(s, k, d, e, paths);
    ReplaceOneMatch(s, k, d, e, paths);
  }

  /** The one match of `ReconstructSheetCell` is rewritten to the reference. */
  lemma ReplaceOneMatch(s: string, k: nat, d: nat, e: nat, paths: seq<string>)
    requires d + 1 <= e < |s| && s[e] == '!' && '!' !in s[d + 1..e]
    requires 1 <= k <= |paths| && paths[k - 1] != ""
    ensures var fp := paths[k - 1];
            Replacement(s, Placeholder(k, s[d + 1..|s|], |s|), paths)
              == "'" + Dirname(fp) + [Sep] + "[" + Basename(fp) + "]" + s[d + 1..e] + "'!" + s[e + 1..]
  {
    SplitAtBang(s, d + 1, e);
    ReplaceSheetCell(Placeholder(k, s[d + 1..|s|], |s|), s[d + 1..e], s[e + 1..], paths, s);
  }

  /** A text with a `!` at `e` is what precedes it, the `!`, and what follows. */
  lemma SplitAtBang(s: string, a: nat, e: nat)
    requires a <= e < |s| && s[e] == '!'
    ensures s[a..] == s[a..e] + "!" + s[e + 1..]
  {
  }

  /** The formula of `ReconstructSheetCell` is one match, which is replaced. */
  lemma ReconstructOneMatch(s: string, k: nat, d: nat, e: nat, paths: seq<string>)
    requires SheetCellFormula(s, k, d, e)
    ensures Reconstruct(s, paths) == Replacement(s, Placeholder(k, s[d + 1..|s|], |s|), paths)
  {
    PlaceholderOfSheetCell(s, k, d, e, |s|);
    ReconstructWhole(s, Placeholder(k, s[d + 1..|s|], |s|), paths);
  }

  /** A formula that is one whole match is replaced by its replacement. */
  lemma ReconstructWhole(s: string, m: Placeholder, paths: seq<string>)
    requires PlaceholderAt(s, 0) == Some(m) && m.end == |s|
    ensures Reconstruct(s, paths) == Replacement(s, m, paths)
  {
    SubstituteMatch(s, paths, 0, m);
    assert s[0..m.end] == s;
  }

  /** A match at `p` is replaced and the scan resumes where it ended. */
  lemma SubstituteMatch(s: string, paths: seq<string>, p: nat, m: Placeholder)
    requires p <= |s| && PlaceholderAt(s, p) == Some(m)
    ensures SubstituteFrom(s, paths, p) == Replacement(s[p..m.end], m, paths) + SubstituteFrom(s, paths, m.end)
  {
  }

  lemma FirstBang(sh: string, c: string)
    requires '!' !in sh
    ensures var part := sh + "!" + c;
            IndexOf(part, '!', 0) == Some(|sh|) && part[..|sh|] == sh && part[|sh| + 1..] == c
  {
    var part := sh + "!" + c;
    assert forall x :: 0 <= x < |sh| ==> part[x] == sh[x];
    IndexOfIs(part, '!', 0, |sh|);
    assert part[..|sh|] == sh;
  }

  /** A placeholder whose number has no file is kept as written. */
  lemma ReplaceUnnumbered(whole: string, m: Placeholder, paths: seq<string>)
    requires m.index == 0 || m.index > |paths|
    ensures Replacement(whole, m, paths) == whole
  {
  }
}
