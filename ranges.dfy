/**
 * The characteristic line of a multi-cell target: its size, a summary chosen
 * from the kinds of value it holds, and a digest of its values in row-major
 * order.
 */
module Ranges {
  import opened Text
  import opened Workbook

  /** How the summary sees one value. */
  datatype CellKind = NumberCell | ErrorCell | TextCell | OtherCell

  /** Numbers add to the sum; strings starting with `#` are error values;
    * other strings are text; empty cells and array formulas are neither. */
  function Kind(v: Value): CellKind {
    match v
    case Num(_) => NumberCell
    case Str(s) => if |s| > 0 && s[0] == '#' then ErrorCell else TextCell
    case _ => OtherCell
  }

  /** A value's contribution to the hash input, before its `||`. */
  function Token(v: Value): string {
    match v
    case ArrayF(_) => "ArrayFormula"
    case Empty => ""
    case _ => ValueText(v)
  }

  /** The running state of the loop over the cells. */
  datatype Tally = Tally(sum: int, numbers: nat, errors: nat, texts: nat, hashInput: string)

  const Start: Tally := Tally(0, 0, 0, 0, "")

  /** One iteration of the inner loop. */
  function AddCell(t: Tally, v: Value): Tally {
    var t' := t.(hashInput := t.hashInput + Token(v) + "||");
    match Kind(v)
    case NumberCell => t'.(sum := t.sum + v.n, numbers := t.numbers + 1)
    case ErrorCell => t'.(errors := t.errors + 1)
    case TextCell => t'.(texts := t.texts + 1)
    case OtherCell => t'
  }

  /** What one cell adds to each field. */
  lemma AddCellFields(t: Tally, v: Value)
    ensures AddCell(t, v).numbers == t.numbers + (if Kind(v) == NumberCell then 1 else 0)
    ensures AddCell(t, v).errors == t.errors + (if Kind(v) == ErrorCell then 1 else 0)
    ensures AddCell(t, v).texts == t.texts + (if Kind(v) == TextCell then 1 else 0)
    ensures AddCell(t, v).sum == t.sum + (if v.Num? then v.n else 0)
  {
  }

  /** The tally after the loop has seen `cells`, in order, starting from `t`. */
  function TallyFrom(t: Tally, cells: seq<Value>): Tally {
    if |cells| == 0 then t
    else AddCell(TallyFrom(t, cells[..|cells| - 1]), cells[|cells| - 1])
  }

  function TallyOf(cells: seq<Value>): Tally {
    TallyFrom(Start, cells)
  }

  lemma TallyFromSnoc(t: Tally, cells: seq<Value>, v: Value)
    ensures TallyFrom(t, cells + [v]) == AddCell(TallyFrom(t, cells), v)
  {
    assert (cells + [v])[..|cells|] == cells;
  }

  lemma TallyOfSnoc(cells: seq<Value>, v: Value)
    ensures TallyOf(cells + [v]) == AddCell(TallyOf(cells), v)
  {
    TallyFromSnoc(Start, cells, v);
  }

  /** Tallying `a` and then `b` is tallying `a + b`. */
  lemma {:induction false} TallyFromAppend(t: Tally, a: seq<Value>, b: seq<Value>)
    ensures TallyFrom(TallyFrom(t, a), b) == TallyFrom(t, a + b)
    decreases |b|
  {
    if |b| == 0 {
      assert a + b == a;
    } else {
      var init := b[..|b| - 1];
      var last := b[|b| - 1];
      TallyFromAppend(t, a, init);
      assert (a + b)[..|a + b| - 1] == a + init;
    }
  }

  /** The cells of a range in row-major order. */
  function Flatten(rows: seq<seq<Value>>): seq<Value> {
    if |rows| == 0 then [] else Flatten(rows[..|rows| - 1]) + rows[|rows| - 1]
  }

  // ----- reference definitions, read from the front -----

  /** How many of `cells` are of kind `k`. */
  function KindCount(cells: seq<Value>, k: CellKind): nat {
    if |cells| == 0 then 0
    else (if Kind(cells[0]) == k then 1 else 0) + KindCount(cells[1..], k)
  }

  /** The sum of the numbers among `cells`. */
  function NumberSum(cells: seq<Value>): int {
    if |cells| == 0 then 0
    else (if cells[0].Num? then cells[0].n else 0) + NumberSum(cells[1..])
  }

  lemma FlattenSnoc(rows: seq<seq<Value>>, i: nat)
    requires i < |rows|
    ensures Flatten(rows[..i + 1]) == Flatten(rows[..i]) + rows[i]
  {
    assert rows[..i + 1][..i] == rows[..i];
  }

  lemma {:induction false} KindCountAppend(a: seq<Value>, b: seq<Value>, k: CellKind)
    ensures KindCount(a + b, k) == KindCount(a, k) + KindCount(b, k)
    decreases |a|
  {
    if |a| == 0 {
      assert a + b == b;
    } else {
      assert (a + b)[0] == a[0] && (a + b)[1..] == a[1..] + b;
      KindCountAppend(a[1..], b, k);
    }
  }

  lemma {:induction false} NumberSumAppend(a: seq<Value>, b: seq<Value>)
    ensures NumberSum(a + b) == NumberSum(a) + NumberSum(b)
    decreases |a|
  {
    if |a| == 0 {
      assert a + b == b;
    } else {
      assert (a + b)[0] == a[0] && (a + b)[1..] == a[1..] + b;
      NumberSumAppend(a[1..], b);
    }
  }

  /** The loop's counters and sum are the counts and the sum of the cells. */
  lemma TallyCounts(cells: seq<Value>)
    ensures TallyOf(cells).numbers == KindCount(cells, NumberCell)
    ensures TallyOf(cells).errors == KindCount(cells, ErrorCell)
    ensures TallyOf(cells).texts == KindCount(cells, TextCell)
    ensures TallyOf(cells).sum == NumberSum(cells)
  {
    TallyCountsKinds(cells);
    TallySum(cells);
  }

  lemma {:induction false} TallyCountsKinds(cells: seq<Value>)
    ensures TallyOf(cells).numbers == KindCount(cells, NumberCell)
    ensures TallyOf(cells).errors == KindCount(cells, ErrorCell)
    ensures TallyOf(cells).texts == KindCount(cells, TextCell)
    decreases |cells|
  {
    if |cells| > 0 {
      var init := cells[..|cells| - 1];
      var last := cells[|cells| - 1];
      assert cells == init + [last];
      TallyCountsKinds(init);
      TallyOfSnoc(init, last);
      AddCellFields(TallyOf(init), last);
      KindCountAppend(init, [last], NumberCell);
      KindCountAppend(init, [last], ErrorCell);
      KindCountAppend(init, [last], TextCell);
    }
  }

  lemma {:induction false} TallySum(cells: seq<Value>)
    ensures TallyOf(cells).sum == NumberSum(cells)
    decreases |cells|
  {
    if |cells| > 0 {
      var init := cells[..|cells| - 1];
      var last := cells[|cells| - 1];
      assert cells == init + [last];
      TallySum(init);
      TallyOfSnoc(init, last);
      AddCellFields(TallyOf(init), last);
      NumberSumAppend(init, [last]);
    }
  }

  /** The hash input read from the front: each cell's token followed by `||`. */
  function HashInput(cells: seq<Value>): string {
    if |cells| == 0 then "" else Token(cells[0]) + "||" + HashInput(cells[1..])
  }

  lemma {:induction false} HashInputAppend(a: seq<Value>, b: seq<Value>)
    ensures HashInput(a + b) == HashInput(a) + HashInput(b)
    decreases |a|
  {
    if |a| == 0 {
      assert a + b == b;
    } else {
      assert (a + b)[0] == a[0] && (a + b)[1..] == a[1..] + b;
      HashInputAppend(a[1..], b);
    }
  }

  /** The loop's hash input is every cell's token followed by `||`, in order. */
  lemma {:induction false} TallyHash(cells: seq<Value>)
    ensures TallyOf(cells).hashInput == HashInput(cells)
    decreases |cells|
  {
    if |cells| > 0 {
      var init := cells[..|cells| - 1];
      var last := cells[|cells| - 1];
      assert cells == init + [last];
      TallyHash(init);
      TallyOfSnoc(init, last);
      HashInputAppend(init, [last]);
      assert HashInput([last]) == Token(last) + "||" by { assert [last][1..] == []; }
    }
  }

  /** A kind is counted exactly when a cell of that kind is present. */
  lemma {:induction false} KindCountPositive(cells: seq<Value>, k: CellKind)
    ensures KindCount(cells, k) > 0 <==> exists i :: 0 <= i < |cells| && Kind(cells[i]) == k
    decreases |cells|
  {
    if |cells| > 0 {
      KindCountPositive(cells[1..], k);
      if KindCount(cells[1..], k) > 0 {
        var i :| 0 <= i < |cells[1..]| && Kind(cells[1..][i]) == k;
        assert Kind(cells[i + 1]) == k;
      }
      if exists i :: 0 <= i < |cells| && Kind(cells[i]) == k {
        var i :| 0 <= i < |cells| && Kind(cells[i]) == k;
        if i > 0 { assert Kind(cells[1..][i - 1]) == k; }
      }
    }
  }

  /** Every cell is of exactly one kind. */
  lemma {:induction false} KindsPartition(cells: seq<Value>)
    ensures KindCount(cells, NumberCell) + KindCount(cells, ErrorCell) + KindCount(cells, TextCell)
          + KindCount(cells, OtherCell) == |cells|
    decreases |cells|
  {
    if |cells| > 0 {
      KindsPartition(cells[1..]);
    }
  }

  // ----- the summary -----

  /** The summary category, in the order the branches test it. */
  datatype Summary = NoSummary | SumOf(total: int) | Errors(count: nat) | TextOnly

  function SummaryOf(t: Tally): Summary {
    if t.numbers > 0 then SumOf(t.sum)
    else if t.errors > 0 then Errors(t.errors)
    else if t.texts > 0 then TextOnly
    else NoSummary
  }

  predicate HasKind(cells: seq<Value>, k: CellKind) {
    exists i :: 0 <= i < |cells| && Kind(cells[i]) == k
  }

  /** Which summary a range gets: the sum when it holds any number, else the
    * error count when it holds any `#` string, else `Text` when it holds any
    * other string, else nothing. */
  lemma SummaryCategory(cells: seq<Value>)
    ensures var s := SummaryOf(TallyOf(cells));
      && (s.SumOf? <==> HasKind(cells, NumberCell))
      && (s.SumOf? ==> s.total == NumberSum(cells))
      && (s.Errors? <==> !HasKind(cells, NumberCell) && HasKind(cells, ErrorCell))
      && (s.Errors? ==> s.count == KindCount(cells, ErrorCell))
      && (s.TextOnly? <==> !HasKind(cells, NumberCell) && !HasKind(cells, ErrorCell) && HasKind(cells, TextCell))
      && (s.NoSummary? <==> forall i :: 0 <= i < |cells| ==> Kind(cells[i]) == OtherCell)
  {
    TallyCounts(cells);
    KindCountPositive(cells, NumberCell);
    KindCountPositive(cells, ErrorCell);
    KindCountPositive(cells, TextCell);
  }

  /** `str(d)` for an integer's digits, with a `,` between groups of three
    * counted from the right. */
  function Grouped(d: string): (r: string)
    ensures |d| <= 3 ==> r == d
    decreases |d|
  {
    if |d| <= 3 then d else Grouped(d[..|d| - 3]) + "," + d[|d| - 3..]
  }

  /** `s` with every `,` removed. */
  function Ungrouped(s: string): string {
    if |s| == 0 then ""
    else if s[0] == ',' then Ungrouped(s[1..])
    else [s[0]] + Ungrouped(s[1..])
  }

  lemma {:induction false} UngroupedAppend(a: string, b: string)
    ensures Ungrouped(a + b) == Ungrouped(a) + Ungrouped(b)
    decreases |a|
  {
    if |a| == 0 {
      assert a + b == b;
    } else {
      assert (a + b)[0] == a[0] && (a + b)[1..] == a[1..] + b;
      UngroupedAppend(a[1..], b);
      if a[0] != ',' {
        assert [a[0]] + Ungrouped(a[1..]) + Ungrouped(b) == [a[0]] + (Ungrouped(a[1..]) + Ungrouped(b));
      }
    }
  }

  lemma {:induction false} UngroupedPlain(s: string)
    requires ',' !in s
    ensures Ungrouped(s) == s
    decreases |s|
  {
    if |s| > 0 {
      UngroupedPlain(s[1..]);
    }
  }

  /** Removing the separators gives the digits back. */
  lemma {:induction false} GroupedRoundTrip(d: string)
    requires ',' !in d
    ensures Ungrouped(Grouped(d)) == d
    decreases |d|
  {
    if |d| <= 3 {
      UngroupedPlain(d);
    } else {
      var hi := d[..|d| - 3];
      var lo := d[|d| - 3..];
      var g := Grouped(hi);
      assert Grouped(d) == g + "," + lo;
      assert Ungrouped(g) == hi by { GroupedRoundTrip(hi); }
      assert Ungrouped(lo) == lo by { UngroupedPlain(lo); }
      assert Ungrouped(",") == "";
      assert Ungrouped(g + ",") == hi by { UngroupedAppend(g, ","); }
      assert Ungrouped(g + "," + lo) == hi + lo by { UngroupedAppend(g + ",", lo); }
      assert hi + lo == d;
    }
  }

  /** `f"{n:,.2f}"` for a whole number `n` with |n| <= 2^53. The `f` format
    * turns an int into a float first, so beyond 2^53 Python prints the
    * nearest float's digits (and fails beyond the float range); the model
    * keeps the exact digits. */
  function FixedTwo(n: int): string {
    (if n < 0 then "-" else "") + Grouped(NatToString(if n < 0 then -n else n)) + ".00"
  }

  /** The sum as displayed: `f"{n:,.2f}".replace('.00', '')`, for sums with
    * |n| <= 2^53, where the float conversion is exact. For a whole sum the
    * replacement only drops the decimals, so the text is the sign and the
    * grouped digits, and without its commas it is the plain decimal. */
  function SumText(n: int): (r: string)
    ensures r == (if n < 0 then "-" else "") + Grouped(NatToString(if n < 0 then -n else n))
    ensures Ungrouped(r) == IntToString(n)
  {
    WholeDropsDecimals(n);
    ReplaceAll(FixedTwo(n), ".00", "")
  }

  /** `SumText` without its name: the replacement of `.00` in the fixed-point
    * text of a whole number. */
  lemma WholeDropsDecimals(n: int)
    ensures ReplaceAll(FixedTwo(n), ".00", "") == (if n < 0 then "-" else "") + Grouped(NatToString(if n < 0 then -n else n))
    ensures Ungrouped(ReplaceAll(FixedTwo(n), ".00", "")) == IntToString(n)
  {
    var head := (if n < 0 then "-" else "") + Grouped(NatToString(if n < 0 then -n else n));
    assert forall k :: 0 <= k < |head| ==> head[k] != '.' by {
      GroupedChars(NatToString(if n < 0 then -n else n));
    }
    ReplaceSkipsHead(head, ".00", ".00", "");
    assert ReplaceAll(".00", ".00", "") == "";
    assert head + ".00" == FixedTwo(n);
    assert head + "" == head;
    GroupedRoundTrip(NatToString(if n < 0 then -n else n));
    UngroupedAppend(if n < 0 then "-" else "", Grouped(NatToString(if n < 0 then -n else n)));
    UngroupedPlain(if n < 0 then "-" else "");
  }

  /** A comma stands exactly at every fourth place counted back from the
    * end: each group after the first holds three digits. */
  lemma {:induction false} GroupedCommas(d: string)
    requires ',' !in d
    ensures forall k :: 0 <= k < |Grouped(d)| ==> (Grouped(d)[k] == ',' <==> (|Grouped(d)| - k) % 4 == 0)
    decreases |d|
  {
    if |d| > 3 {
      var hi := d[..|d| - 3];
      var lo := d[|d| - 3..];
      var g := Grouped(hi);
      assert ',' !in hi by {
        forall k | 0 <= k < |hi| ensures hi[k] != ',' { assert hi[k] == d[k]; }
      }
      GroupedCommas(hi);
      assert ',' !in lo by {
        forall k | 0 <= k < 3 ensures lo[k] != ',' { assert lo[k] == d[|d| - 3 + k]; }
      }
      CommasOfGroup(g, lo);
    }
  }

  /** One more group of three digits behind a comma keeps every comma at a
    * fourth place from the end. */
  lemma CommasOfGroup(g: string, lo: string)
    requires |lo| == 3 && ',' !in lo
    requires forall k :: 0 <= k < |g| ==> (g[k] == ',' <==> (|g| - k) % 4 == 0)
    ensures var r := g + "," + lo;
      forall k :: 0 <= k < |r| ==> (r[k] == ',' <==> (|r| - k) % 4 == 0)
  {
    var r := g + "," + lo;
    forall k | 0 <= k < |r| ensures r[k] == ',' <==> (|r| - k) % 4 == 0 {
      if k < |g| {
        assert r[k] == g[k];
        assert |r| - k == (|g| - k) + 4;
      } else if k == |g| {
        assert r[k] == ',' && |r| - k == 4;
      } else {
        assert r[k] == lo[k - |g| - 1];
        assert 0 < |r| - k < 4;
      }
    }
  }

  /** Grouping digits adds only commas. */
  lemma {:induction false} GroupedChars(d: string)
    requires AllDigits(d)
    ensures forall k :: 0 <= k < |Grouped(d)| ==> IsDigit(Grouped(d)[k]) || Grouped(d)[k] == ','
    decreases |d|
  {
    if |d| > 3 {
      var hi := d[..|d| - 3];
      GroupedChars(hi);
      var g := Grouped(d);
      assert g == Grouped(hi) + "," + d[|d| - 3..];
      forall k | 0 <= k < |g| ensures IsDigit(g[k]) || g[k] == ',' {
        if k < |Grouped(hi)| {
          assert g[k] == Grouped(hi)[k];
        } else if k > |Grouped(hi)| {
          assert g[k] == d[|d| - 3 + (k - |Grouped(hi)| - 1)];
        }
      }
    }
  }

  function SummaryText(s: Summary): string {
    match s
    case SumOf(total) => " [Sum: " + SumText(total) + "]"
    case Errors(n) => " [Errors: " + NatToString(n) + "]"
    case TextOnly => " [Text]"
    case NoSummary => ""
  }

  /** The number of columns: the length of the first row, or 0. */
  function Columns(rows: seq<seq<Value>>): nat {
    if |rows| > 0 then |rows[0]| else 0
  }

  /** The characteristic of a range: `[rR x cC]`, the summary, and the digest
    * of the hash input. */
  function RangeDisplay(rows: seq<seq<Value>>, digest: string -> string): (r: string)
    ensures |r| > 0 && r[0] == '['
  {
    var t := TallyOf(Flatten(rows));
    "[" + NatToString(|rows|) + "R x " + NatToString(Columns(rows)) + "C]"
      + SummaryText(SummaryOf(t)) + " [Hash: " + digest(t.hashInput) + "...]"
  }

  /** The loop over the rows and their cells, accumulating the sum, the
    * three counters and the hash input. */
  method SummarizeRange(rows: seq<seq<Value>>, digest: string -> string) returns (display: string)
    ensures display == RangeDisplay(rows, digest)
  {
    var t := Start;
    var i := 0;
    while i < |rows|
      invariant 0 <= i <= |rows|
      invariant t == TallyOf(Flatten(rows[..i]))
    {
      t := TallyRow(t, rows[i]);
      TallyFromAppend(Start, Flatten(rows[..i]), rows[i]);
      FlattenSnoc(rows, i);
      i := i + 1;
    }
    assert rows[..i] == rows;
    display := "[" + NatToString(|rows|) + "R x " + NatToString(Columns(rows)) + "C]"
      + SummaryText(SummaryOf(t)) + " [Hash: " + digest(t.hashInput) + "...]";
  }

  /** The inner loop over the cells of one row. */
  method TallyRow(t0: Tally, row: seq<Value>) returns (t: Tally)
    ensures t == TallyFrom(t0, row)
  {
    t := t0;
    var j := 0;
    while j < |row|
      invariant 0 <= j <= |row|
      invariant t == TallyFrom(t0, row[..j])
    {
      var v := row[j];
      TallyFromSnoc(t0, row[..j], v);
      t := CountCell(t, v);
      assert row[..j + 1] == row[..j] + [v];
      j := j + 1;
    }
    assert row[..j] == row;
  }

  /** The body of the inner loop: the counter the value's kind selects, the
    * sum for a number, and the value's token on the hash input. */
  method CountCell(t0: Tally, v: Value) returns (t: Tally)
    ensures t == AddCell(t0, v)
  {
    t := t0;
    match v {
      case Num(n) =>
        t := t.(sum := t.sum + n, numbers := t.numbers + 1);
      case Str(s) =>
        if |s| > 0 && s[0] == '#' {
          t := t.(errors := t.errors + 1);
        } else {
          t := t.(texts := t.texts + 1);
        }
      case _ =>
    }
    t := t.(hashInput := t.hashInput + Token(v) + "||");
  }
}
