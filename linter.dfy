/**
 * The file filter of prospector's pylint adapter.
 *
 * `ProspectorLinter` subclasses pylint's `PyLinter` and overrides the step
 * that expands the modules given on the command line into the files to
 * check: whatever pylint found is filtered through the caller's
 * `is_excluded` predicate.  Depending on the installed pylint version the
 * expansion comes back either as a path-keyed mapping (pylint newer than
 * 2.15.6) or as a sequence of records each carrying a `path` field (older
 * pylint); in the older shape the filter also removes duplicate paths, the
 * last record for a path winning.
 */
module PylintLinter {

  /** File paths are plain strings; `pathlib.Path` normalisation is not modelled. */
  type Path = string

  /** A release version `major.minor.micro` of pylint. */
  datatype Version = Version(major: nat, minor: nat, micro: nat)

  /** `a > b` in release order (the lexicographic order on the three numbers). */
  predicate Newer(a: Version, b: Version)
  {
    || a.major > b.major
    || (a.major == b.major && a.minor > b.minor)
    || (a.major == b.major && a.minor == b.minor && a.micro > b.micro)
  }

  /** The last pylint release whose expansion is still a sequence of records. */
  const LastSequenceRelease := Version(2, 15, 6)

  /** Does the installed pylint return its expansion as a path-keyed mapping? */
  predicate ReturnsMapping(installed: Version)
  {
    Newer(installed, LastSequenceRelease)
  }

  /** One record of the older expansion: its `path` field and everything else it carries. */
  datatype Record<D> = Record(path: Path, data: D)

  /** What pylint's own expansion returns, in one of its two shapes. */
  datatype Expanded<D> =
    | Mapping(entries: map<Path, D>)
    | Records(items: seq<Record<D>>)

  /** What the adapter returns: the filtered mapping, or the values of the filtered dictionary. */
  datatype Filtered<D> =
    | FilteredMapping(entries: map<Path, D>)
    | FilteredValues(values: seq<Record<D>>)

  /** The file set the caller hands to the adapter; only its exclusion predicate is used here. */
  datatype FoundFiles = FoundFiles(isExcluded: Path -> bool)

  /**
   * A path-keyed dictionary that remembers the order in which its keys were
   * first inserted, as a Python `dict` does: assigning to a key that is
   * already present replaces its value and keeps its position.
   */
  datatype InsertionDict<V> = InsertionDict(keys: seq<Path>, entries: map<Path, V>)
  {
    ghost predicate Valid()
    {
      && (forall i, j :: 0 <= i < j < |keys| ==> keys[i] != keys[j])
      && (forall k :: k in entries <==> k in keys)
    }

    /** `d[k] = v`. */
    function Put(k: Path, v: V): (d: InsertionDict<V>)
      requires Valid()
      ensures d.Valid()
      ensures d.entries == entries[k := v]
      ensures k in entries ==> d.keys == keys
      ensures k !in entries ==> d.keys == keys + [k]
    {
      if k in entries then InsertionDict(keys, entries[k := v])
      else InsertionDict(keys + [k], entries[k := v])
    }

    /** `d.values()`, in key order. */
    function Values(): seq<V>
      requires Valid()
    {
      seq(|keys|, j requires 0 <= j < |keys| => entries[keys[j]])
    }
  }

  /** The empty dictionary `{}`. */
  function EmptyDict<V>(): (d: InsertionDict<V>)
    ensures d.Valid() && d.entries == map[]
  {
    InsertionDict([], map[])
  }

  // ---------------------------------------------------------------------
  // Reference definitions

  /** The keys of the mapping that the exclusion predicate rejects. */
  function ExcludedKeys<D>(entries: map<Path, D>, isExcluded: Path -> bool): set<Path>
  {
    set p | p in entries && isExcluded(p)
  }

  /** The mapping restricted to the paths that are not excluded. */
  function FilterMapping<D>(entries: map<Path, D>, isExcluded: Path -> bool): map<Path, D>
  {
    map p | p in entries && !isExcluded(p) :: entries[p]
  }

  /**
   * The dictionary the older branch builds from `items`: each non-excluded
   * record is stored under its path, in input order.
   */
  function FilterRecords<D>(items: seq<Record<D>>, isExcluded: Path -> bool): (d: InsertionDict<Record<D>>)
    ensures d.Valid()
    decreases |items|
  {
    if items == [] then EmptyDict()
    else
      var d := FilterRecords(items[..|items| - 1], isExcluded);
      var r := items[|items| - 1];
      if isExcluded(r.path) then d else d.Put(r.path, r)
  }

  /** What the older branch returns: the values of that dictionary. */
  function LegacyResult<D>(items: seq<Record<D>>, isExcluded: Path -> bool): seq<Record<D>>
  {
    FilterRecords(items, isExcluded).Values()
  }

  /** The paths of `items` that are not excluded. */
  function KeptPaths<D>(items: seq<Record<D>>, isExcluded: Path -> bool): set<Path>
  {
    set i | 0 <= i < |items| && !isExcluded(items[i].path) :: items[i].path
  }

  /** No record after position `i` has the same path as the record at `i`. */
  ghost predicate IsLast<D>(items: seq<Record<D>>, i: int)
    requires 0 <= i < |items|
  {
    forall j :: i < j < |items| ==> items[j].path != items[i].path
  }

  /** The path-keyed mapping holding, for each path of `items`, its last record. */
  function LastWins<D>(items: seq<Record<D>>): map<Path, Record<D>>
    decreases |items|
  {
    if items == [] then map[]
    else LastWins(items[..|items| - 1])[items[|items| - 1].path := items[|items| - 1]]
  }

  // ---------------------------------------------------------------------
  // The adapter

  class ProspectorLinter {
    const files: FoundFiles

    /** Stores the caller's file set; setting up pylint itself is not modelled. */
    constructor (files: FoundFiles)
      ensures this.files == files
    {
      this.files := files;
    }

    /**
     * `_expand_files`: filter pylint's expansion through `files.isExcluded`.
     * The shape of `expanded` is the one the installed pylint produces.
     */
    method ExpandFiles<D>(installed: Version, expanded: Expanded<D>) returns (r: Filtered<D>)
      requires expanded.Mapping? == ReturnsMapping(installed)
      ensures r.FilteredMapping? == ReturnsMapping(installed)
      ensures expanded.Mapping? ==>
        && (forall p :: p in r.entries <==> p in expanded.entries && !files.isExcluded(p))
        && (forall p :: p in r.entries ==> r.entries[p] == expanded.entries[p])
        && |r.entries| == |expanded.entries| - |ExcludedKeys(expanded.entries, files.isExcluded)|
      ensures expanded.Records? ==> r.values == LegacyResult(expanded.items, files.isExcluded)
    {
      var isExcluded := files.isExcluded;
      if ReturnsMapping(installed) {
        var entries := expanded.entries;
        var filtered: map<Path, D> := map[];
        var todo := entries.Keys;
        while todo != {}
          invariant todo <= entries.Keys
          invariant forall p :: p in filtered <==> p in entries && p !in todo && !isExcluded(p)
          invariant forall p :: p in filtered ==> filtered[p] == entries[p]
          decreases todo
        {
          var path :| path in todo;
          if !isExcluded(path) {
            filtered := filtered[path := entries[path]];
          }
          todo := todo - {path};
        }
        assert filtered == FilterMapping(entries, isExcluded);
        FilterMappingSize(entries, isExcluded);
        r := FilteredMapping(filtered);
      } else {
        var items := expanded.items;
        var filtered: InsertionDict<Record<D>> := EmptyDict();
        for i := 0 to |items|
          invariant filtered == FilterRecords(items[..i], isExcluded)
        {
          assert items[..i + 1][..i] == items[..i];
          var record := items[i];
          if !isExcluded(record.path) {
            filtered := filtered.Put(record.path, record);
          }
        }
        assert items[..|items|] == items;
        r := FilteredValues(filtered.Values());
      }
    }
  }

  // ---------------------------------------------------------------------
  // Properties of the mapping branch

  /** The filtered mapping has as many entries as the input minus the excluded ones. */
  lemma FilterMappingSize<D>(entries: map<Path, D>, isExcluded: Path -> bool)
    ensures |FilterMapping(entries, isExcluded)| == |entries| - |ExcludedKeys(entries, isExcluded)|
  {
    var kept := FilterMapping(entries, isExcluded).Keys;
    var dropped := ExcludedKeys(entries, isExcluded);
    assert entries.Keys == kept + dropped;
    assert kept !! dropped;
  }

  // ---------------------------------------------------------------------
  // Properties of the sequence branch

  /** Appending a record adds its path to the kept paths unless it is excluded. */
  lemma KeptPathsSnoc<D>(pre: seq<Record<D>>, last: Record<D>, isExcluded: Path -> bool)
    ensures KeptPaths(pre + [last], isExcluded) ==
      if isExcluded(last.path) then KeptPaths(pre, isExcluded)
      else KeptPaths(pre, isExcluded) + {last.path}
  {
    var items := pre + [last];
    forall p | p in KeptPaths(items, isExcluded)
      ensures p in KeptPaths(pre, isExcluded) || (p == last.path && !isExcluded(p))
    {
      var i :| 0 <= i < |items| && !isExcluded(items[i].path) && items[i].path == p;
      if i < |pre| { assert pre[i] == items[i]; }
    }
    forall p | p in KeptPaths(pre, isExcluded)
      ensures p in KeptPaths(items, isExcluded)
    {
      var i :| 0 <= i < |pre| && !isExcluded(pre[i].path) && pre[i].path == p;
      assert items[i] == pre[i];
    }
    if !isExcluded(last.path) {
      assert items[|pre|] == last;
    }
  }

  /** The dictionary built from `items` holds exactly the non-excluded paths of `items`. */
  lemma {:induction false} FilterRecordsKeys<D>(items: seq<Record<D>>, isExcluded: Path -> bool)
    ensures FilterRecords(items, isExcluded).entries.Keys == KeptPaths(items, isExcluded)
    decreases |items|
  {
    if items != [] {
      var n := |items| - 1;
      assert items == items[..n] + [items[n]];
      FilterRecordsKeys(items[..n], isExcluded);
      KeptPathsSnoc(items[..n], items[n], isExcluded);
    }
  }

  /** Each value of that dictionary is an input record filed under its own path. */
  lemma {:induction false} FilterRecordsValues<D>(items: seq<Record<D>>, isExcluded: Path -> bool)
    ensures forall p :: p in FilterRecords(items, isExcluded).entries ==>
      FilterRecords(items, isExcluded).entries[p].path == p &&
      FilterRecords(items, isExcluded).entries[p] in items
    decreases |items|
  {
    if items != [] {
      var n := |items| - 1;
      var pre := items[..n];
      FilterRecordsValues(pre, isExcluded);
      var d' := FilterRecords(pre, isExcluded);
      forall p | p in d'.entries ensures d'.entries[p] in items
      {
        assert d'.entries[p] in pre;
        var k :| 0 <= k < n && pre[k] == d'.entries[p];
        assert items[k] == d'.entries[p];
      }
    }
  }

  /** Under each non-excluded path the dictionary holds the last record with that path. */
  lemma {:induction false} FilterRecordsLast<D>(items: seq<Record<D>>, isExcluded: Path -> bool)
    ensures var d := FilterRecords(items, isExcluded);
      forall i :: 0 <= i < |items| && !isExcluded(items[i].path) && IsLast(items, i) ==>
        items[i].path in d.entries && d.entries[items[i].path] == items[i]
    decreases |items|
  {
    if items != [] {
      var n := |items| - 1;
      var pre := items[..n];
      FilterRecordsLast(pre, isExcluded);
      forall i | 0 <= i < n && IsLast(items, i)
        ensures IsLast(pre, i)
      {
      }
    }
  }

  /**
   * What the sequence branch returns: only non-excluded input records, at
   * most one per path, the last one for its path, and one for every
   * non-excluded path of the input.
   */
  lemma LegacyResultProperties<D>(items: seq<Record<D>>, isExcluded: Path -> bool)
    ensures var r := LegacyResult(items, isExcluded);
      && (forall j :: 0 <= j < |r| ==> !isExcluded(r[j].path) && r[j] in items)
      && (forall j, k :: 0 <= j < k < |r| ==> r[j].path != r[k].path)
      && (forall j, i :: 0 <= j < |r| && 0 <= i < |items| && items[i].path == r[j].path && IsLast(items, i) ==>
            r[j] == items[i])
      && (forall i :: 0 <= i < |items| && !isExcluded(items[i].path) && IsLast(items, i) ==> items[i] in r)
      && (set j | 0 <= j < |r| :: r[j].path) == KeptPaths(items, isExcluded)
  {
    var d := FilterRecords(items, isExcluded);
    var r := LegacyResult(items, isExcluded);
    FilterRecordsKeys(items, isExcluded);
    FilterRecordsValues(items, isExcluded);
    FilterRecordsLast(items, isExcluded);
    assert |r| == |d.keys|;
    forall j | 0 <= j < |r|
      ensures r[j] == d.entries[d.keys[j]] && r[j].path == d.keys[j]
      ensures !isExcluded(r[j].path) && r[j] in items
    {
      assert d.keys[j] in KeptPaths(items, isExcluded);
    }
    forall i | 0 <= i < |items| && !isExcluded(items[i].path) && IsLast(items, i)
      ensures items[i] in r
    {
      var p := items[i].path;
      assert p in d.keys;
      var j :| 0 <= j < |d.keys| && d.keys[j] == p;
      assert r[j] == items[i];
    }
    assert (set j | 0 <= j < |r| :: r[j].path) == d.entries.Keys by {
      forall p | p in d.entries ensures p in (set j | 0 <= j < |r| :: r[j].path)
      {
        assert p in d.keys;
        var j :| 0 <= j < |d.keys| && d.keys[j] == p;
        assert r[j].path == p;
      }
    }
  }

  /**
   * A path keeps the position at which it was first kept: the keys of the
   * dictionary built from any prefix of `items` are a prefix of the keys
   * built from all of it, so the values come out in order of first
   * appearance even when a later record replaces an earlier one.
   */
  lemma {:induction false} FilterRecordsKeyOrder<D>(items: seq<Record<D>>, isExcluded: Path -> bool, n: nat)
    requires n <= |items|
    ensures FilterRecords(items[..n], isExcluded).keys <= FilterRecords(items, isExcluded).keys
    decreases |items|
  {
    if n == |items| {
      assert items[..n] == items;
    } else {
      var m := |items| - 1;
      assert items[..m][..n] == items[..n];
      FilterRecordsKeyOrder(items[..m], isExcluded, n);
    }
  }

  /**
   * Both shapes agree on equivalent content: filtering the records yields
   * the same path-keyed entries as filtering the mapping in which each path
   * holds its last record.
   */
  lemma {:induction false} ShapesAgree<D>(items: seq<Record<D>>, isExcluded: Path -> bool)
    ensures FilterRecords(items, isExcluded).entries == FilterMapping(LastWins(items), isExcluded)
    decreases |items|
  {
    if items != [] {
      var n := |items| - 1;
      ShapesAgree(items[..n], isExcluded);
    }
  }
}
