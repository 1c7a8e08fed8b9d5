/**
 * The workbook cache: a memo table from `(path, data_only, use_resolved)` to a
 * loaded view, keyed by the string `path_<data_only>_<use_resolved>`, with a
 * clear-all operation that the scan calls when it is done.
 */
module Cache {
  import opened Wrappers
  import opened Workbook

  /** `str(b)` for a Python bool. */
  function BoolText(b: bool): string {
    if b then "True" else "False"
  }

  /** The cache key `f"{file_path}_{data_only}_{use_resolved}"`: the path,
    * then `_` and the two flags, the last one ending the key. */
  function CacheKey(path: string, dataOnly: bool, useResolved: bool): (r: string)
    ensures |r| > |path| && r[..|path|] == path && r[|path|] == '_'
    ensures |r| >= 5 && r[|r| - 5] == (if useResolved then '_' else 'F')
  {
    path + "_" + BoolText(dataOnly) + "_" + BoolText(useResolved)
  }

  /** The flag that ends a key is read back from the fifth character from the
    * end: `_` for "_True", `F` for "_False". */
  lemma FlagSuffixDecides(x: string, b: bool, y: string, c: bool)
    requires x + "_" + BoolText(b) == y + "_" + BoolText(c)
    ensures b == c && x == y
  {
    var k := x + "_" + BoolText(b);
    assert k[|k| - 5] == (if b then '_' else 'F');
    assert k[|k| - 5] == (if c then '_' else 'F');
    assert |"_" + BoolText(b)| == |"_" + BoolText(c)|;
    assert x == k[..|x|];
    assert y == k[..|y|];
  }

  /** Distinct lookups never share a cache key: neither flag's text holds `_`,
    * so the two flags and the path can be read back from the key. */
  lemma CacheKeyInjective(p1: string, d1: bool, u1: bool, p2: string, d2: bool, u2: bool)
    requires CacheKey(p1, d1, u1) == CacheKey(p2, d2, u2)
    ensures p1 == p2 && d1 == d2 && u1 == u2
  {
    FlagSuffixDecides(p1 + "_" + BoolText(d1), u1, p2 + "_" + BoolText(d2), u2);
    FlagSuffixDecides(p1, d1, p2, d2);
  }

  /** The keys that belong to a set of lookups. */
  function KeysOf(loaded: set<(string, bool, bool)>): set<string> {
    set t | t in loaded :: CacheKey(t.0, t.1, t.2)
  }

  class WorkbookCache {
    /** The loader: `load_resolved_workbook` when `use_resolved`, else
      * `openpyxl.load_workbook` with `data_only`; None when it raises. */
    const load: (string, bool, bool) -> Option<Book>
    /** `_file_cache` */
    var entries: map<string, Book>
    /** The lookups whose result is stored. */
    ghost var loaded: set<(string, bool, bool)>
    /** Every call of the loader, in order. */
    ghost var loads: seq<(string, bool, bool)>

    /** Every stored key belongs to a stored lookup, and holds what the loader
      * gave for it. */
    ghost predicate Valid()
      reads this
    {
      && entries.Keys == KeysOf(loaded)
      && forall t :: t in loaded ==> load(t.0, t.1, t.2) == Some(entries[CacheKey(t.0, t.1, t.2)])
    }

    constructor (load: (string, bool, bool) -> Option<Book>)
      ensures Valid() && this.load == load
      ensures entries == map[] && loaded == {} && loads == []
    {
      this.load := load;
      entries := map[];
      loaded := {};
      loads := [];
    }

    /** A key is stored exactly when its lookup is. */
    lemma StoredIffLoaded(path: string, dataOnly: bool, useResolved: bool)
      requires Valid()
      ensures CacheKey(path, dataOnly, useResolved) in entries <==> (path, dataOnly, useResolved) in loaded
    {
      var key := CacheKey(path, dataOnly, useResolved);
      if key in entries {
        var t :| t in loaded && CacheKey(t.0, t.1, t.2) == key;
        CacheKeyInjective(t.0, t.1, t.2, path, dataOnly, useResolved);
      }
    }

    /** `get_cached_workbook`: the stored view when there is one; otherwise
      * one call of the loader, whose result is stored when it succeeds. What
      * it returns is always what the loader gives for the lookup. */
    method Get(path: string, dataOnly: bool, useResolved: bool) returns (r: Option<Book>)
      requires Valid()
      modifies this
      ensures Valid()
      ensures r == load(path, dataOnly, useResolved)
      ensures (path, dataOnly, useResolved) in old(loaded) ==>
                entries == old(entries) && loaded == old(loaded) && loads == old(loads)
      ensures (path, dataOnly, useResolved) !in old(loaded) ==>
                && loads == old(loads) + [(path, dataOnly, useResolved)]
                && loaded == (if r.Some? then old(loaded) + {(path, dataOnly, useResolved)} else old(loaded))
                && entries == (if r.Some? then old(entries)[CacheKey(path, dataOnly, useResolved) := r.value]
                               else old(entries))
    {
      var key := CacheKey(path, dataOnly, useResolved);
      StoredIffLoaded(path, dataOnly, useResolved);
      if key !in entries {
        var wb := load(path, dataOnly, useResolved);
        loads := loads + [(path, dataOnly, useResolved)];
        if wb.None? {
          return None;
        }
        entries := entries[key := wb.value];
        loaded := loaded + {(path, dataOnly, useResolved)};
        forall t | t in loaded
          ensures load(t.0, t.1, t.2) == Some(entries[CacheKey(t.0, t.1, t.2)])
        {
          if CacheKey(t.0, t.1, t.2) == key {
            CacheKeyInjective(t.0, t.1, t.2, path, dataOnly, useResolved);
          }
        }
      }
      r := Some(entries[key]);
    }

    /** `clear_file_cache`: forget every stored view (closing them is not
      * modelled). */
    method Clear()
      requires Valid()
      modifies this
      ensures Valid()
      ensures entries == map[] && loaded == {} && loads == old(loads)
    {
      entries := map[];
      loaded := {};
    }
  }

  /** Two lookups of the same view in a row call the loader at most once, and
    * not at all when the view was already stored. */
  method GetTwice(c: WorkbookCache, path: string, dataOnly: bool, useResolved: bool)
    returns (first: Option<Book>, second: Option<Book>)
    requires c.Valid()
    modifies c
    ensures c.Valid()
    ensures first == second
    ensures first.Some? ==> |c.loads| <= |old(c.loads)| + 1
    ensures (path, dataOnly, useResolved) in old(c.loaded) ==> c.loads == old(c.loads)
  {
    first := c.Get(path, dataOnly, useResolved);
    second := c.Get(path, dataOnly, useResolved);
  }
}
