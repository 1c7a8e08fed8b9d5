/**
 * Children in the order their references appear in the formula (the nested
 * `sort_dependencies_by_formula_order`): each dependency is keyed by the
 * earliest place where its cell, `sheet!cell` or `'sheet'!cell` occurs in
 * the upper-cased formula, or one past the formula's length when none does,
 * and the list is sorted stably by that key.
 */
module Ordering {
  import opened Wrappers
  import opened Text
  import opened Workbook

  // ----- the key -----

  /** The three texts searched for: the patterns are escaped but not
    * upper-cased, so they are found only where they are already upper case. */
  function Patterns(d: Task): seq<string> {
    [d.cell, d.sheet + "!" + d.cell, "'" + d.sheet + "'!" + d.cell]
  }

  /** The least start of a match of the first patterns, or `|upper| + 1`. */
  function MinFound(upper: string, pats: seq<string>): (r: nat)
    ensures r <= |upper| + 1
    ensures r == |upper| + 1 <==> forall k :: 0 <= k < |pats| ==> FindFrom(upper, pats[k], 0).None?
    ensures forall k :: 0 <= k < |pats| && FindFrom(upper, pats[k], 0).Some? ==> r <= FindFrom(upper, pats[k], 0).value
    ensures r < |upper| + 1 ==> exists k :: 0 <= k < |pats| && FindFrom(upper, pats[k], 0) == Some(r)
  {
    if |pats| == 0 then |upper| + 1
    else
      var before := MinFound(upper, pats[..|pats| - 1]);
      assert forall k :: 0 <= k < |pats| - 1 ==> pats[..|pats| - 1][k] == pats[k];
      match FindFrom(upper, pats[|pats| - 1], 0)
      case None => before
      case Some(p) =>
        assert OccursAt(upper, pats[|pats| - 1], p);
        if p < before then p else before
  }

  /** An occurrence of `pre + cell` holds an occurrence of `cell`, so the
    * first `cell` comes no later than the first `pre + cell` ends. */
  lemma SuffixFound(upper: string, pre: string, cell: string)
    requires FindFrom(upper, pre + cell, 0).Some?
    ensures FindFrom(upper, cell, 0).Some?
    ensures FindFrom(upper, cell, 0).value <= FindFrom(upper, pre + cell, 0).value + |pre|
  {
    var p := FindFrom(upper, pre + cell, 0).value;
    assert upper[p + |pre|..p + |pre| + |cell|] == (pre + cell)[|pre|..];
    assert OccursAt(upper, cell, p + |pre|);
  }

  /** The sort key of one dependency: since the two longer patterns end
    * with the cell address, a dependency is found exactly when its cell
    * address occurs, and never later than the address's first occurrence. */
  function Key(upper: string, d: Task): (r: nat)
    ensures r <= |upper| + 1
    ensures r < |upper| + 1 <==> FindFrom(upper, d.cell, 0).Some?
    ensures FindFrom(upper, d.cell, 0).Some? ==> r <= FindFrom(upper, d.cell, 0).value
  {
    PatternsFindCell(upper, d);
    MinFound(upper, Patterns(d))
  }

  /** Some pattern of `d` occurs exactly when its cell address does. */
  lemma PatternsFindCell(upper: string, d: Task)
    ensures var m := MinFound(upper, Patterns(d));
      && (m < |upper| + 1 <==> FindFrom(upper, d.cell, 0).Some?)
      && (FindFrom(upper, d.cell, 0).Some? ==> m <= FindFrom(upper, d.cell, 0).value)
  {
    var pats := Patterns(d);
    assert pats[0] == d.cell;
    if FindFrom(upper, d.cell, 0).Some? {
      assert OccursAt(upper, d.cell, FindFrom(upper, d.cell, 0).value);
    } else {
      LongerPatternsMissing(upper, d);
    }
  }

  /** Where the cell address does not occur, no pattern does. */
  lemma LongerPatternsMissing(upper: string, d: Task)
    requires FindFrom(upper, d.cell, 0).None?
    ensures forall k :: 0 <= k < |Patterns(d)| ==> FindFrom(upper, Patterns(d)[k], 0).None?
  {
    var pats := Patterns(d);
    forall k | 0 <= k < |pats| ensures FindFrom(upper, pats[k], 0).None? {
      if k == 1 && FindFrom(upper, pats[1], 0).Some? {
        assert pats[1] == d.sheet + "!" + d.cell;
        SuffixFound(upper, d.sheet + "!", d.cell);
        assert false;
      } else if k == 2 && FindFrom(upper, pats[2], 0).Some? {
        assert pats[2] == "'" + d.sheet + "'!" + d.cell;
        SuffixFound(upper, "'" + d.sheet + "'!", d.cell);
        assert false;
      }
    }
  }

  /** Some pattern of `d` occurs in the formula. */
  predicate Matched(upper: string, d: Task) {
    Key(upper, d) < |upper| + 1
  }

  // ----- the stable sort -----

  /** An entry of `dep_positions`, with its place in the input. */
  datatype Keyed = Keyed(pos: nat, index: nat, dep: Task)

  /** The entries of the dependencies, in input order. */
  function KeyedDeps(upper: string, deps: seq<Task>): (r: seq<Keyed>)
    ensures |r| == |deps|
    ensures forall i :: 0 <= i < |deps| ==> r[i] == Keyed(Key(upper, deps[i]), i, deps[i])
  {
    seq(|deps|, i requires 0 <= i < |deps| => Keyed(Key(upper, deps[i]), i, deps[i]))
  }

  /** `x` placed after every entry whose key is not greater than its own. */
  function InsertLast(x: Keyed, s: seq<Keyed>): (r: seq<Keyed>)
    ensures |r| == |s| + 1
    ensures multiset(r) == multiset(s) + multiset{x}
  {
    if |s| == 0 || s[|s| - 1].pos <= x.pos then s + [x]
    else
      var r := InsertLast(x, s[..|s| - 1]) + [s[|s| - 1]];
      assert s == s[..|s| - 1] + [s[|s| - 1]];
      r
  }

  /** `list.sort(key=...)` on the entries: insertion of each entry in turn. */
  function StableSort(xs: seq<Keyed>): (r: seq<Keyed>)
    ensures |r| == |xs|
    ensures multiset(r) == multiset(xs)
  {
    if |xs| == 0 then []
    else
      var r := InsertLast(xs[|xs| - 1], StableSort(xs[..|xs| - 1]));
      assert xs == xs[..|xs| - 1] + [xs[|xs| - 1]];
      r
  }

  /** Keys do not decrease, and equal keys keep their input order. */
  predicate Ordered(s: seq<Keyed>) {
    forall i, j :: 0 <= i < j < |s| ==>
      s[i].pos < s[j].pos || (s[i].pos == s[j].pos && s[i].index < s[j].index)
  }

  /** Inserting an entry that comes later in the input than every entry
    * already sorted keeps the order. */
  lemma {:induction false} InsertLastOrdered(x: Keyed, s: seq<Keyed>)
    requires Ordered(s)
    requires forall i :: 0 <= i < |s| ==> s[i].index < x.index
    ensures Ordered(InsertLast(x, s))
    decreases |s|
  {
    if |s| == 0 || s[|s| - 1].pos <= x.pos {
      var r := s + [x];
      forall i, j | 0 <= i < j < |r|
        ensures r[i].pos < r[j].pos || (r[i].pos == r[j].pos && r[i].index < r[j].index)
      {
        if j == |s| && i < |s| - 1 {
          assert s[i].pos <= s[|s| - 1].pos;
        }
      }
    } else {
      var init := s[..|s| - 1];
      var last := s[|s| - 1];
      assert Ordered(init);
      InsertLastOrdered(x, init);
      var front := InsertLast(x, init);
      var r := front + [last];
      forall i | 0 <= i < |front| ensures front[i].pos < last.pos || (front[i].pos == last.pos && front[i].index < last.index)
      {
        assert front[i] in multiset(init) + multiset{x};
        if front[i] != x {
          assert front[i] in init;
          var k :| 0 <= k < |init| && init[k] == front[i];
          assert s[k] == front[i];
        }
      }
      forall i, j | 0 <= i < j < |r|
        ensures r[i].pos < r[j].pos || (r[i].pos == r[j].pos && r[i].index < r[j].index)
      {
        if j == |front| {
          assert r[i] == front[i];
        } else {
          assert r[i] == front[i] && r[j] == front[j];
        }
      }
    }
  }

  /** Entries whose index is their place in the input. */
  predicate Numbered(xs: seq<Keyed>) {
    forall i :: 0 <= i < |xs| ==> xs[i].index == i
  }

  /** The sorted entries are ordered. */
  lemma {:induction false} StableSortOrdered(xs: seq<Keyed>)
    requires Numbered(xs)
    ensures Ordered(StableSort(xs))
    decreases |xs|
  {
    if |xs| > 0 {
      var init := xs[..|xs| - 1];
      var x := xs[|xs| - 1];
      assert Numbered(init);
      StableSortOrdered(init);
      var s := StableSort(init);
      forall i | 0 <= i < |s| ensures s[i].index < x.index {
        assert s[i] in multiset(init);
        var k :| 0 <= k < |init| && init[k] == s[i];
      }
      InsertLastOrdered(x, s);
    }
  }

  // ----- the sorter -----

  /** The dependencies of the sorted entries. */
  function DepsOf(s: seq<Keyed>): (r: seq<Task>)
    ensures |r| == |s| && forall i :: 0 <= i < |s| ==> r[i] == s[i].dep
  {
    seq(|s|, i requires 0 <= i < |s| => s[i].dep)
  }

  /** The entries in sorted order, for a formula that is used. */
  function SortedEntries(deps: seq<Task>, formula: string): seq<Keyed> {
    StableSort(KeyedDeps(Upper(formula), deps))
  }

  /** `sort_dependencies_by_formula_order(dependencies, formula)`; `None`
    * stands for a formula that is not a string. */
  function OrderDeps(deps: seq<Task>, formula: Option<string>): (r: seq<Task>)
    ensures formula.None? || formula == Some("") || |deps| == 0 ==> r == deps
    ensures |r| == |deps|
  {
    if formula.None? || formula.value == "" || |deps| == 0 then deps
    else DepsOf(SortedEntries(deps, formula.value))
  }

  /** The indices of the entries. */
  function IndicesOf(s: seq<Keyed>): (r: seq<nat>)
    ensures |r| == |s| && forall i :: 0 <= i < |s| ==> r[i] == s[i].index
  {
    seq(|s|, i requires 0 <= i < |s| => s[i].index)
  }

  /** The places `0 .. n - 1` of a list of length `n`. */
  function Places(n: nat): (r: seq<nat>)
    ensures |r| == n && forall i :: 0 <= i < n ==> r[i] == i
  {
    seq(n, i requires 0 <= i < n => i)
  }

  /** Inserting an entry adds its dependency to the dependencies. */
  lemma {:induction false} InsertLastDeps(x: Keyed, s: seq<Keyed>)
    ensures multiset(DepsOf(InsertLast(x, s))) == multiset(DepsOf(s)) + multiset{x.dep}
    decreases |s|
  {
    if |s| == 0 || s[|s| - 1].pos <= x.pos {
      assert DepsOf(s + [x]) == DepsOf(s) + [x.dep];
    } else {
      var init := s[..|s| - 1];
      var last := s[|s| - 1];
      InsertLastDeps(x, init);
      assert DepsOf(InsertLast(x, init) + [last]) == DepsOf(InsertLast(x, init)) + [last.dep];
      assert DepsOf(s) == DepsOf(init) + [last.dep];
    }
  }

  /** Inserting an entry adds its index to the indices. */
  lemma {:induction false} InsertLastIndices(x: Keyed, s: seq<Keyed>)
    ensures multiset(IndicesOf(InsertLast(x, s))) == multiset(IndicesOf(s)) + multiset{x.index}
    decreases |s|
  {
    if |s| == 0 || s[|s| - 1].pos <= x.pos {
      assert IndicesOf(s + [x]) == IndicesOf(s) + [x.index];
    } else {
      var init := s[..|s| - 1];
      var last := s[|s| - 1];
      InsertLastIndices(x, init);
      assert IndicesOf(InsertLast(x, init) + [last]) == IndicesOf(InsertLast(x, init)) + [last.index];
      assert IndicesOf(s) == IndicesOf(init) + [last.index];
    }
  }

  /** One more entry adds its dependency. */
  lemma DepsOfSnoc(s: seq<Keyed>, x: Keyed)
    ensures multiset(DepsOf(s + [x])) == multiset(DepsOf(s)) + multiset{x.dep}
  {
    assert DepsOf(s + [x]) == DepsOf(s) + [x.dep];
  }

  /** One more entry adds its index. */
  lemma IndicesOfSnoc(s: seq<Keyed>, x: Keyed)
    ensures multiset(IndicesOf(s + [x])) == multiset(IndicesOf(s)) + multiset{x.index}
  {
    assert IndicesOf(s + [x]) == IndicesOf(s) + [x.index];
  }

  /** Sorting permutes the dependencies of the entries. */
  lemma {:induction false} StableSortDeps(xs: seq<Keyed>)
    ensures multiset(DepsOf(StableSort(xs))) == multiset(DepsOf(xs))
    decreases |xs|
  {
    if |xs| > 0 {
      var init := xs[..|xs| - 1];
      var last := xs[|xs| - 1];
      StableSortDeps(init);
      InsertLastDeps(last, StableSort(init));
      DepsOfSnoc(init, last);
      assert init + [last] == xs;
    }
  }

  /** Sorting permutes the indices of the entries. */
  lemma {:induction false} StableSortIndices(xs: seq<Keyed>)
    ensures multiset(IndicesOf(StableSort(xs))) == multiset(IndicesOf(xs))
    decreases |xs|
  {
    if |xs| > 0 {
      var init := xs[..|xs| - 1];
      var last := xs[|xs| - 1];
      StableSortIndices(init);
      InsertLastIndices(last, StableSort(init));
      IndicesOfSnoc(init, last);
      assert init + [last] == xs;
    }
  }

  /** The output is a permutation of the input. */
  lemma OrderDepsPermutation(deps: seq<Task>, formula: Option<string>)
    ensures multiset(OrderDeps(deps, formula)) == multiset(deps)
  {
    if !(formula.None? || formula.value == "" || |deps| == 0) {
      var keyed := KeyedDeps(Upper(formula.value), deps);
      StableSortDeps(keyed);
      assert DepsOf(keyed) == deps;
    }
  }

  /** Every sorted entry is the input's entry at its index. */
  lemma SortedFromInput(keyed: seq<Keyed>)
    requires Numbered(keyed)
    ensures forall i :: 0 <= i < |StableSort(keyed)| ==>
      StableSort(keyed)[i].index < |keyed| && StableSort(keyed)[i] == keyed[StableSort(keyed)[i].index]
  {
    var s := StableSort(keyed);
    forall i | 0 <= i < |s| ensures s[i].index < |keyed| && s[i] == keyed[s[i].index] {
      assert s[i] in multiset(keyed);
      var k :| 0 <= k < |keyed| && keyed[k] == s[i];
    }
  }

  /** The output is the input rearranged by the indices of the sorted
    * entries, a permutation of its places; keys do not decrease along it,
    * and dependencies with equal keys keep their input order. */
  lemma OrderDepsStable(deps: seq<Task>, formula: string)
    requires formula != "" && |deps| > 0
    ensures var s := SortedEntries(deps, formula);
      var r := OrderDeps(deps, Some(formula));
      var upper := Upper(formula);
      && multiset(IndicesOf(s)) == multiset(Places(|deps|))
      && (forall i :: 0 <= i < |r| ==> s[i].index < |deps| && r[i] == deps[s[i].index])
      && (forall i, j :: 0 <= i < j < |r| ==>
            Key(upper, r[i]) < Key(upper, r[j])
            || (Key(upper, r[i]) == Key(upper, r[j]) && s[i].index < s[j].index))
  {
    var upper := Upper(formula);
    var keyed := KeyedDeps(upper, deps);
    var s := StableSort(keyed);
    var r := DepsOf(s);
    assert r == OrderDeps(deps, Some(formula));
    StableSortIndices(keyed);
    assert IndicesOf(keyed) == Places(|deps|);
    SortedFromInput(keyed);
    forall i | 0 <= i < |r| ensures s[i].index < |deps| && r[i] == deps[s[i].index] && Key(upper, r[i]) == s[i].pos {
      assert s[i] == keyed[s[i].index];
    }
    StableSortOrdered(keyed);
  }

  /** A dependency none of whose patterns occurs comes after every one whose
    * pattern does. */
  lemma MatchedFirst(deps: seq<Task>, formula: string, i: nat, j: nat)
    requires formula != "" && |deps| > 0
    requires i < j < |OrderDeps(deps, Some(formula))|
    requires Matched(Upper(formula), OrderDeps(deps, Some(formula))[j])
    ensures Matched(Upper(formula), OrderDeps(deps, Some(formula))[i])
  {
    OrderDepsStable(deps, formula);
  }

  /** Trying one more pattern keeps the least position found so far unless
    * the new pattern occurs earlier. */
  lemma MinFoundStep(upper: string, pats: seq<string>, k: nat)
    requires k < |pats|
    ensures var before := MinFound(upper, pats[..k]);
      MinFound(upper, pats[..k + 1])
        == match FindFrom(upper, pats[k], 0)
           case Some(p) => if p < before then p else before
           case None => before
  {
    assert pats[..k + 1][..k] == pats[..k];
    assert pats[..k + 1][k] == pats[k];
  }

  // ----- the method -----

  /** The loop that keys the dependencies one by one (each trying its three
    * patterns), the stable sort, and the list of the sorted dependencies. */
  method SortDependenciesByFormulaOrder(deps: seq<Task>, formula: Option<string>) returns (r: seq<Task>)
    ensures r == OrderDeps(deps, formula)
  {
    if formula.None? || formula.value == "" || |deps| == 0 {
      return deps;
    }
    var upper := Upper(formula.value);
    var positions: seq<Keyed> := [];
    var i := 0;
    while i < |deps|
      invariant 0 <= i <= |deps|
      invariant positions == KeyedDeps(upper, deps)[..i]
    {
      var pats := Patterns(deps[i]);
      var minPos := |upper| + 1;
      var k := 0;
      while k < |pats|
        invariant 0 <= k <= |pats|
        invariant minPos == MinFound(upper, pats[..k])
      {
        MinFoundStep(upper, pats, k);
        match FindFrom(upper, pats[k], 0) {
          case Some(p) =>
            if p < minPos {
              minPos := p;
            }
          case None =>
        }
        k := k + 1;
      }
      assert pats[..k] == pats;
      positions := positions + [Keyed(minPos, i, deps[i])];
      i := i + 1;
    }
    assert positions == KeyedDeps(upper, deps);
    var sorted := StableSort(positions);
    r := DepsOf(sorted);
  }
}
