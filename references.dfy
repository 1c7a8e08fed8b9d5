/**
 * Turning the raw input references of a compiled cell into tasks
 * (dependency_scanner.py, lines 246-258). A reference of the external shape
 * `'dir[file]sheet'!cell` names `file` in the working directory; any other
 * reference must be `sheet!cell` with exactly one `!` and names a cell of the
 * target's own file. A reference of neither shape raises, and the whole cell
 * becomes an error leaf.
 */
module References {
  import opened Wrappers
  import opened Text
  import opened Paths
  import opened Workbook
  import opened Collect

  /** The four groups of the pattern `'(.*)\[(.*?)\](.*?)'!(.*)`. */
  datatype ExternalRef = ExternalRef(dir: string, file: string, sheet: string, cell: string)

  /** `'!` starts at index `x` of `s`. */
  predicate QuoteBangAt(s: string, x: int) {
    0 <= x && x + 1 < |s| && s[x] == '\'' && s[x + 1] == '!'
  }

  /** The first index at or after `from` where `'!` starts. */
  function NextQuoteBang(s: string, from: nat): (r: Option<nat>)
    ensures r.Some? ==> from <= r.value && QuoteBangAt(s, r.value)
    ensures r.Some? ==> forall x :: from <= x < r.value ==> !QuoteBangAt(s, x)
    ensures r.None? ==> forall x :: from <= x ==> !QuoteBangAt(s, x)
    decreases |s| - from
  {
    if from + 1 >= |s| then None
    else if QuoteBangAt(s, from) then Some(from)
    else NextQuoteBang(s, from + 1)
  }

  /** `NextQuoteBang` reports the first `'!` from `from` on. */
  lemma NextQuoteBangIs(s: string, from: nat, k: nat)
    requires from <= k && QuoteBangAt(s, k)
    requires forall x :: from <= x < k ==> !QuoteBangAt(s, x)
    ensures NextQuoteBang(s, from) == Some(k)
  {
  }

  /** `'!` does not occur in `t`. */
  ghost predicate NoQuoteBang(t: string) {
    forall x :: !QuoteBangAt(t, x)
  }

  /** The `[` at `i` can start the file group: a `]` follows it, and a `'!`
    * follows that `]`. */
  predicate OpenWorks(s: string, i: nat) {
    && i < |s| && s[i] == '['
    && match IndexOf(s, ']', i + 1)
       case None => false
       case Some(j) => NextQuoteBang(s, j + 1).Some?
  }

  /** The greedy first group: the last usable `[` at an index in 1..i. */
  function LastWorkingOpen(s: string, i: nat): (r: Option<nat>)
    ensures r.Some? ==> 1 <= r.value <= i && OpenWorks(s, r.value)
    decreases i
  {
    if i == 0 then None
    else if OpenWorks(s, i) then Some(i)
    else LastWorkingOpen(s, i - 1)
  }

  /** `LastWorkingOpen` finds the usable `[` with no usable one after it. */
  lemma {:induction false} LastWorkingOpenIs(s: string, top: nat, o: nat)
    requires 1 <= o <= top && OpenWorks(s, o)
    requires forall j :: o < j <= top ==> !OpenWorks(s, j)
    ensures LastWorkingOpen(s, top) == Some(o)
    decreases top
  {
    if top != o {
      LastWorkingOpenIs(s, top - 1, o);
    }
  }

  /** Without a usable `[`, `LastWorkingOpen` finds nothing. */
  lemma {:induction false} LastWorkingOpenNone(s: string, top: nat)
    requires forall j :: 1 <= j <= top ==> !OpenWorks(s, j)
    ensures LastWorkingOpen(s, top) == None
    decreases top
  {
    if top != 0 {
      LastWorkingOpenNone(s, top - 1);
    }
  }

  /** A string with the four delimiters of an external reference at `i`, `j`
    * and `k` is the concatenation of its four groups and those delimiters. */
  lemma Reassemble(s: string, i: nat, j: nat, k: nat)
    requires 1 <= i < j < k && k + 2 <= |s|
    requires s[0] == '\'' && s[i] == '[' && s[j] == ']' && s[k] == '\'' && s[k + 1] == '!'
    ensures s == "'" + s[1..i] + "[" + s[i + 1..j] + "]" + s[j + 1..k] + "'!" + s[k + 2..]
  {
    var t := "'" + s[1..i] + "[" + s[i + 1..j] + "]" + s[j + 1..k] + "'!" + s[k + 2..];
    assert |t| == |s|;
    forall x | 0 <= x < |s| ensures t[x] == s[x] {
      if x == 0 {
      } else if x < i {
        assert t[x] == s[1..i][x - 1];
      } else if x == i {
      } else if x < j {
        assert t[x] == s[i + 1..j][x - i - 1];
      } else if x == j {
      } else if x < k {
        assert t[x] == s[j + 1..k][x - j - 1];
      } else if x < k + 2 {
      } else {
        assert t[x] == s[k + 2..][x - k - 2];
      }
    }
  }

  /** The groups of the match whose file group opens at `i`: the file runs to
    * the first `]`, the sheet to the first `'!` after it, and the cell to the
    * end. */
  function GroupsFrom(ref: string, i: nat): (e: ExternalRef)
    requires 1 <= i && OpenWorks(ref, i)
    ensures ']' !in e.file
  {
    var j := IndexOf(ref, ']', i + 1).value;
    var k := NextQuoteBang(ref, j + 1).value;
    assert forall x :: i + 1 <= x < j ==> ref[x] != ']';
    ExternalRef(ref[1..i], ref[i + 1..j], ref[j + 1..k], ref[k + 2..])
  }

  /** `re.match` of the external-reference pattern (anchored at the start; the
    * last group takes the rest of the string). */
  function ParseExternalRef(ref: string): (r: Option<ExternalRef>)
    ensures r.Some? ==> ']' !in r.value.file
  {
    if |ref| == 0 || ref[0] != '\'' then None
    else match LastWorkingOpen(ref, |ref|)
      case None => None
      case Some(i) => Some(GroupsFrom(ref, i))
  }

  /** A matched reference is its four groups with the delimiters between them. */
  lemma ParseReassembles(ref: string)
    requires ParseExternalRef(ref).Some?
    ensures var e := ParseExternalRef(ref).value;
            ref == "'" + e.dir + "[" + e.file + "]" + e.sheet + "'!" + e.cell
  {
    var i := LastWorkingOpen(ref, |ref|).value;
    ParseIsGroups(ref, i);
    GroupsReassemble(ref, i);
  }

  lemma GroupsReassemble(ref: string, i: nat)
    requires 1 <= i && OpenWorks(ref, i) && ref[0] == '\''
    ensures var e := GroupsFrom(ref, i);
            ref == "'" + e.dir + "[" + e.file + "]" + e.sheet + "'!" + e.cell
  {
    var j := IndexOf(ref, ']', i + 1).value;
    var k := NextQuoteBang(ref, j + 1).value;
    GroupsFromIs(ref, i, j, k);
    Reassemble(ref, i, j, k);
  }

  /** Where the delimiters of a printed external reference sit. */
  lemma PrintedLayout(d: string, f: string, sh: string, c: string)
    ensures var s := "'" + d + "[" + f + "]" + sh + "'!" + c;
            var o := 1 + |d|; var j := o + 1 + |f|; var k := j + 1 + |sh|;
            && |s| == k + 2 + |c| && s[0] == '\''
            && s[o] == '[' && s[j] == ']' && s[k] == '\'' && s[k + 1] == '!'
            && s[1..o] == d && s[o + 1..j] == f && s[j + 1..k] == sh && s[k + 2..] == c
  {
  }

  /** The parse of a string whose delimiters sit where a printed external
    * reference puts them. */
  lemma ParseAt(s: string, o: nat, j: nat, k: nat)
    requires 1 <= o < j < k && k + 2 <= |s|
    requires s[0] == '\'' && s[o] == '[' && s[j] == ']' && s[k] == '\'' && s[k + 1] == '!'
    requires ']' !in s[o + 1..j] && '[' !in s[o + 1..]
    requires NoQuoteBang(s[j + 1..k])
    ensures ParseExternalRef(s) == Some(ExternalRef(s[1..o], s[o + 1..j], s[j + 1..k], s[k + 2..]))
  {
    CloseAt(s, o, j);
    QuoteBangAfter(s, j, k);
    assert OpenWorks(s, o);
    NoOpenAfter(s, o);
    LastWorkingOpenIs(s, |s|, o);
    ParseFromPositions(s, o, j, k);
  }

  /** Past the last `[` no `[` can open the file group. */
  lemma NoOpenAfter(s: string, o: nat)
    requires o < |s| && '[' !in s[o + 1..]
    ensures forall x :: o < x ==> !OpenWorks(s, x)
  {
    forall x | o < x < |s| ensures s[x] != '[' {
      assert s[x] == s[o + 1..][x - o - 1];
    }
  }

  lemma CloseAt(s: string, o: nat, j: nat)
    requires o < j < |s| && s[j] == ']' && ']' !in s[o + 1..j]
    ensures IndexOf(s, ']', o + 1) == Some(j)
  {
    forall x | o + 1 <= x < j ensures s[x] != ']' {
      assert s[x] == s[o + 1..j][x - o - 1];
    }
    IndexOfIs(s, ']', o + 1, j);
  }

  lemma QuoteBangAfter(s: string, j: nat, k: nat)
    requires j < k && QuoteBangAt(s, k) && NoQuoteBang(s[j + 1..k])
    ensures NextQuoteBang(s, j + 1) == Some(k)
  {
    forall x | j + 1 <= x < k ensures !QuoteBangAt(s, x) {
      if x + 1 < k {
        assert s[x] == s[j + 1..k][x - j - 1] && s[x + 1] == s[j + 1..k][x - j];
        assert !QuoteBangAt(s[j + 1..k], x - j - 1);
      }
    }
    NextQuoteBangIs(s, j + 1, k);
  }

  /** The parse is read off the three positions the searches find. */
  lemma ParseFromPositions(s: string, o: nat, j: nat, k: nat)
    requires |s| > 0 && s[0] == '\''
    requires LastWorkingOpen(s, |s|) == Some(o)
    requires IndexOf(s, ']', o + 1) == Some(j)
    requires NextQuoteBang(s, j + 1) == Some(k)
    ensures ParseExternalRef(s) == Some(ExternalRef(s[1..o], s[o + 1..j], s[j + 1..k], s[k + 2..]))
  {
    ParseIsGroups(s, o);
    GroupsFromIs(s, o, j, k);
  }

  lemma ParseIsGroups(s: string, o: nat)
    requires |s| > 0 && s[0] == '\''
    requires LastWorkingOpen(s, |s|) == Some(o)
    ensures ParseExternalRef(s) == Some(GroupsFrom(s, o))
  {
  }

  lemma GroupsFromIs(s: string, o: nat, j: nat, k: nat)
    requires 1 <= o && OpenWorks(s, o)
    requires IndexOf(s, ']', o + 1) == Some(j)
    requires NextQuoteBang(s, j + 1) == Some(k)
    ensures GroupsFrom(s, o) == ExternalRef(s[1..o], s[o + 1..j], s[j + 1..k], s[k + 2..])
  {
  }

  /** Printing an external reference and parsing it back gives its four parts,
    * when the file, sheet and cell hold no `[`, the file no `]` and the sheet
    * no `'!`. */
  lemma ParsePrintedRef(d: string, f: string, sh: string, c: string)
    requires '[' !in f && '[' !in sh && '[' !in c && ']' !in f
    requires NoQuoteBang(sh)
    ensures ParseExternalRef("'" + d + "[" + f + "]" + sh + "'!" + c) == Some(ExternalRef(d, f, sh, c))
  {
    var s := "'" + d + "[" + f + "]" + sh + "'!" + c;
    var o := 1 + |d|;
    var j := o + 1 + |f|;
    var k := j + 1 + |sh|;
    PrintedLayout(d, f, sh, c);
    assert s[o + 1..] == f + "]" + sh + "'!" + c;
    ParseAt(s, o, j, k);
  }

  /** One raw input reference as a task. */
  function NormalizeRef(wp: string, file: string, ref: string): (r: Result<Task, Fault>)
    ensures r.Err? <==> ParseExternalRef(ref).None? && Count(ref, '!') != 1
    ensures r.Ok? && ParseExternalRef(ref).None? ==>
              r.value.file == file && '!' !in r.value.sheet && '!' !in r.value.cell
  {
    match ParseExternalRef(ref)
    case Some(e) => Ok(Task(Join(wp, e.file), e.sheet, e.cell))
    case None =>
      var parts := SplitOn(ref, '!');
      if |parts| != 2 then Err(BadReference(ref, |parts|))
      else Ok(Task(file, Strip(parts[0], {'\''}), parts[1]))
  }

  /** An external reference names the cell of its file in the working
    * directory; the directory written in the reference is dropped. */
  lemma NormalizeExternal(wp: string, file: string, d: string, f: string, sh: string, c: string)
    requires '[' !in f && '[' !in sh && '[' !in c && ']' !in f
    requires NoQuoteBang(sh)
    ensures NormalizeRef(wp, file, "'" + d + "[" + f + "]" + sh + "'!" + c) == Ok(Task(Join(wp, f), sh, c))
  {
    ParsePrintedRef(d, f, sh, c);
  }

  /** A same-file reference `sheet!cell`, with or without quotes around the
    * sheet, names that cell of the target's own file. */
  lemma NormalizeSameFile(wp: string, file: string, quoted: bool, sh: string, c: string)
    requires '!' !in sh && '!' !in c && '[' !in sh && '[' !in c && '\'' !in sh
    requires |sh| > 0
    ensures var q := if quoted then "'" else "";
            NormalizeRef(wp, file, q + sh + q + "!" + c) == Ok(Task(file, sh, c))
  {
    var q := if quoted then "'" else "";
    var ref := q + sh + q + "!" + c;
    assert ParseExternalRef(ref).None? by {
      assert forall x :: 0 <= x < |ref| ==> ref[x] != '[' by {
        forall x | 0 <= x < |ref| ensures ref[x] != '[' {
          if x < |q| {
          } else if x < |q| + |sh| {
            assert ref[x] == sh[x - |q|];
          } else if x >= |q| + |sh| + |q| + 1 {
            assert ref[x] == c[x - |q| - |sh| - |q| - 1];
          }
        }
      }
      assert forall x :: !OpenWorks(ref, x);
    }
    var pieces := [q + sh + q, c];
    assert '!' !in q + sh + q by {
      forall x | 0 <= x < |q + sh + q| ensures (q + sh + q)[x] != '!' {
        if |q| <= x < |q| + |sh| { assert (q + sh + q)[x] == sh[x - |q|]; }
      }
    }
    assert JoinWith(pieces, '!') == ref;
    SplitJoin(pieces, '!');
    assert sh[0] in sh && sh[|sh| - 1] in sh;
    StripSurrounded(q, sh, q, {'\''});
  }

  /** The loop at lines 249-258: each reference in turn, appended to the
    * list, until one raises. */
  method CollectReferences(step: string -> Result<Task, Fault>, refs: seq<string>) returns (r: Result<seq<Task>, Fault>)
    ensures r == CollectWith(step, refs)
  {
    var parts: seq<Task> := [];
    var i := 0;
    while i < |refs|
      invariant 0 <= i <= |refs|
      invariant |parts| == i
      invariant forall k :: 0 <= k < i ==> step(refs[k]) == Ok(parts[k])
    {
      var part := step(refs[i]);
      if part.Err? {
        FirstFailureDecides(step, refs, i);
        return Err(part.error);
      }
      parts := parts + [part.value];
      i := i + 1;
    }
    assert CollectWith(step, refs).value == parts;
    return Ok(parts);
  }

  /** `NormalizeRef` for one cell's file and working directory. */
  function Normalizer(wp: string, file: string): string -> Result<Task, Fault> {
    ref => NormalizeRef(wp, file, ref)
  }

  /** All input references of a cell as tasks, in input order; the first one
    * that raises makes the whole list fail. */
  function NormalizeAll(wp: string, file: string, refs: seq<string>): (r: Result<seq<Task>, Fault>)
    ensures r.Ok? <==> forall k :: 0 <= k < |refs| ==> NormalizeRef(wp, file, refs[k]).Ok?
    ensures r.Ok? ==> |r.value| == |refs|
    ensures r.Ok? ==> forall k :: 0 <= k < |refs| ==> NormalizeRef(wp, file, refs[k]) == Ok(r.value[k])
    ensures r.Err? ==> exists k :: 0 <= k < |refs| && NormalizeRef(wp, file, refs[k]) == Err(r.error)
                                  && forall j :: 0 <= j < k ==> NormalizeRef(wp, file, refs[j]).Ok?
  {
    CollectWith(Normalizer(wp, file), refs)
  }

  /** The references of one cell, normalised by the loop. */
  method NormalizeReferences(wp: string, file: string, refs: seq<string>) returns (r: Result<seq<Task>, Fault>)
    ensures r == NormalizeAll(wp, file, refs)
  {
    r := CollectReferences(Normalizer(wp, file), refs);
  }
}
