/**
 * The three `os.path` operations the scanner applies to Windows paths
 * (`join`, `basename`, `dirname`), as `ntpath` performs them on
 * backslash-separated strings: the drive (`C:` or a `\\server\share`) and
 * the root separator after it are split off first and kept as they are.
 */
module Paths {
  import opened Wrappers
  import opened Text

  const Sep: char := '\\'

  /** Position of the last separator in `p`. */
  function LastSep(p: string): (r: Option<nat>)
    ensures r.Some? ==> r.value < |p| && p[r.value] == Sep
    ensures r.Some? ==> forall j :: r.value < j < |p| ==> p[j] != Sep
    ensures r.None? ==> Sep !in p
  {
    if |p| == 0 then None
    else if p[|p| - 1] == Sep then Some(|p| - 1)
    else
      var r := LastSep(p[..|p| - 1]);
      assert p == p[..|p| - 1] + [p[|p| - 1]];
      r
  }

  /** `p` starts with two separators: a `\\server\share` path. */
  predicate IsUnc(p: string) {
    |p| > 1 && p[0] == Sep && p[1] == Sep
  }

  /** `ntpath.splitroot`: the lengths of the drive and of the root separator
    * at the start of `p`. A share drive runs up to the separator after the
    * share name (the whole path when that separator is missing); a drive
    * letter is `X:`; a leading separator alone is a root without a drive. */
  function SplitRoot(p: string): (r: (nat, nat))
    ensures r.0 + r.1 <= |p| && r.1 <= 1
    ensures r.1 == 1 ==> p[r.0] == Sep
    ensures !IsUnc(p) ==> r.0 == 0 || (r.0 == 2 && p[1] == ':')
  {
    if |p| > 0 && p[0] == Sep then
      if |p| > 1 && p[1] == Sep then
        match IndexOf(p, Sep, 2)
        case None => (|p|, 0)
        case Some(i) =>
          match IndexOf(p, Sep, i + 1)
          case None => (|p|, 0)
          case Some(j) => (j, 1)
      else (0, 1)
    else if |p| > 1 && p[1] == ':' then
      if |p| > 2 && p[2] == Sep then (2, 1) else (2, 0)
    else (0, 0)
  }

  /** The length of the drive and root together. */
  function RootEnd(p: string): (n: nat)
    ensures n <= |p|
  {
    SplitRoot(p).0 + SplitRoot(p).1
  }

  /** `os.path.basename`: what follows the last separator after the root. */
  function Basename(p: string): string
  {
    var n := RootEnd(p);
    var rest := p[n..];
    match LastSep(rest)
    case None => rest
    case Some(i) =>
      rest[i + 1..]
  }

  /** `os.path.dirname`: the drive and root, then what precedes the last
    * separator after them with trailing separators removed. The result is a
    * leading part of the path that keeps the whole drive and root. */
  function Dirname(p: string): (r: string)
    ensures RootEnd(p) <= |r| && r <= p
  {
    var n := RootEnd(p);
    var rest := p[n..];
    match LastSep(rest)
    case None => p[..n]
    case Some(i) =>
      var s := StripEnd(rest[..i], {Sep});
      assert p[..n] + s == p[..n + |s|];
      p[..n] + s
  }

  /** `os.path.join(a, b)` for a `b` without drive or root: a separator is
    * added when the part of `a` after its root is non-empty and does not end
    * in one, and between a bare share drive and `b`. */
  function Join(a: string, b: string): (r: string)
    ensures |r| >= |a| + |b| && r[..|a|] == a && r[|r| - |b|..] == b
  {
    var (dl, rl) := SplitRoot(a);
    if dl + rl < |a| && a[|a| - 1] != Sep then a + [Sep] + b
    else if rl == 0 && 0 < dl && a[dl - 1] != ':' && a[dl - 1] != Sep && b != "" then a + [Sep] + b
    else a + b
  }

  /** Joining a separator-free name onto a directory that is not a share
    * path keeps the directory's drive and root. */
  lemma SplitRootOfJoin(a: string, b: string)
    requires a != "" && !IsUnc(a) && Sep !in b
    ensures SplitRoot(Join(a, b)) == SplitRoot(a)
    ensures !IsUnc(Join(a, b))
  {
    var p := Join(a, b);
    assert p[..|a|] == a;
    assert forall k :: 0 <= k < |a| ==> p[k] == a[k];
    if |a| == 1 && |b| > 0 {
      assert p[1] == Sep || p[1] == b[0];
    }
    if |a| == 2 && |b| > 0 {
      assert p[2] == Sep || p[2] == b[0];
    }
  }

  /** What follows the root of a join: the part of `a` after its root, the
    * added separator if any, then `b`. */
  lemma RestOfJoin(a: string, b: string)
    requires a != "" && !IsUnc(a) && Sep !in b
    ensures var n := RootEnd(a);
      var p := Join(a, b);
      RootEnd(p) == n
      && (n < |a| && a[|a| - 1] != Sep ==> p[n..] == a[n..] + [Sep] + b)
      && (!(n < |a| && a[|a| - 1] != Sep) ==> p[n..] == a[n..] + b)
  {
    SplitRootOfJoin(a, b);
  }

  /** The file name joined onto a directory is the base name of the result. */
  lemma BasenameOfJoin(a: string, b: string)
    requires a != "" && !IsUnc(a) && Sep !in b
    ensures Basename(Join(a, b)) == b
  {
    RestOfJoin(a, b);
    var n := RootEnd(a);
    var p := Join(a, b);
    var rest := p[n..];
    var front := rest[..|rest| - |b|];
    assert rest == front + b;
    forall j | |front| <= j < |rest| ensures rest[j] != Sep {
      assert rest[j] == b[j - |front|];
    }
    if Sep in front {
      var i :| 0 <= i < |front| && front[i] == Sep;
      if n < |a| && a[|a| - 1] != Sep {
        assert front == a[n..] + [Sep];
      } else {
        assert front == a[n..] && n < |a|;
        assert front[|front| - 1] == a[|a| - 1];
      }
      assert rest[|front| - 1] == Sep;
      var l := LastSep(rest).value;
      assert l == |front| - 1;
      assert rest[l + 1..] == b;
    } else {
      assert LastSep(rest).None?;
      assert front == [];
    }
  }

  /** The directory a file name was joined onto is the directory name of the
    * result, when it does not end in a separator itself. */
  lemma DirnameOfJoin(a: string, b: string)
    requires a != "" && !IsUnc(a) && a[|a| - 1] != Sep && Sep !in b
    ensures Dirname(Join(a, b)) == a
  {
    RestOfJoin(a, b);
    var n := RootEnd(a);
    var p := Join(a, b);
    var rest := p[n..];
    if n < |a| {
      var i := |a| - n;
      LastSepBeforeName(a[n..], b);
      assert LastSep(rest) == Some(i);
      assert rest[..i] == a[n..];
      assert StripEnd(a[n..], {Sep}) == a[n..];
      assert Dirname(p) == p[..n] + a[n..];
      assert p[..n] == a[..n];
    } else {
      assert rest == b;
      assert LastSep(rest).None?;
      assert Dirname(p) == p[..n];
    }
  }

  /** In `d + sep + b` with a separator-free `b`, the last separator is the
    * one before `b`. */
  lemma LastSepBeforeName(d: string, b: string)
    requires Sep !in b
    ensures LastSep(d + [Sep] + b) == Some(|d|)
  {
    var q := d + [Sep] + b;
    forall j | |d| < j < |q| ensures q[j] != Sep {
      assert q[j] == b[j - |d| - 1];
    }
    var r := LastSep(q);
    assert q[|d|] == Sep;
    assert r.Some?;
    assert !(r.value < |d|);
  }

  /** At the root of a drive the directory keeps its separator: the parent of
    * `X:\name` is `X:\`. */
  lemma DirnameAtDriveRoot(x: char, name: string)
    requires x != Sep && Sep !in name
    ensures Dirname([x, ':', Sep] + name) == [x, ':', Sep]
  {
    var p := [x, ':', Sep] + name;
    assert SplitRoot(p) == (2, 1);
    assert p[3..] == name;
  }
}
