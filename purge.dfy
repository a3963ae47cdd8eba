/**
 * `purgeChangesets`: keep the newest `retain_after_purge` changeset files and full
 * downloads, and the changeset feature classes with the greatest names; delete the
 * rest, carrying on past any deletion that fails.
 */
module Purge {
  import opened Wrappers
  import Strings

  /** A file in a download directory, with its creation time. */
  datatype Artifact = Artifact(name: string, ctime: int)

  // ---------------------------------------------------------------------------
  // Sequences as sets.

  predicate Distinct<T(==)>(s: seq<T>)
  {
    forall i, j :: 0 <= i < j < |s| ==> s[i] != s[j]
  }

  function Elements<T(==)>(s: seq<T>): set<T>
  {
    set x | x in s
  }

  lemma {:induction false} DistinctCard<T>(s: seq<T>)
    ensures Distinct(s) <==> |Elements(s)| == |s|
  {
    if s != [] {
      var tail := s[1..];
      DistinctCard(tail);
      assert Elements(s) == {s[0]} + Elements(tail);
      assert forall i :: 0 <= i < |tail| ==> tail[i] == s[i + 1];
      if s[0] in tail {
        var i :| 0 <= i < |tail| && tail[i] == s[0];
        assert s[i + 1] == s[0];
        assert Elements(s) == Elements(tail);
        assert |Elements(tail)| <= |tail| by { CardBound(tail); }
      } else {
        assert Distinct(s) <==> Distinct(tail);
      }
    } else {
      assert Elements(s) == {};
    }
  }

  lemma {:induction false} CardBound<T>(s: seq<T>)
    ensures |Elements(s)| <= |s|
  {
    if s != [] {
      CardBound(s[1..]);
      assert Elements(s) == {s[0]} + Elements(s[1..]);
    } else {
      assert Elements(s) == {};
    }
  }

  /** Two sequences with the same elements, counted with multiplicity, have the same element set. */
  lemma SameElements<T>(a: seq<T>, b: seq<T>)
    requires multiset(a) == multiset(b)
    ensures Elements(a) == Elements(b) && |a| == |b|
  {
    forall x | x in a ensures x in b {
      assert x in multiset(a);
    }
    forall x | x in b ensures x in a {
      assert x in multiset(b);
    }
    assert |multiset(a)| == |multiset(b)|;
  }

  // ---------------------------------------------------------------------------
  // Python slicing.

  /** Where a slice bound `n` falls in a sequence of length `len`: negative counts from the end. */
  function SliceIndex(n: int, len: nat): (k: nat)
    ensures k <= len
    ensures 0 <= n <= len ==> k == n
    ensures n > len ==> k == len
    ensures n < 0 ==> k == if len + n < 0 then 0 else len + n
  {
    if n < 0 then (if len + n < 0 then 0 else len + n)
    else if n > len then len
    else n
  }

  /** Python's `s[n:]`. */
  function SliceFrom<T>(s: seq<T>, n: int): seq<T>
  {
    s[SliceIndex(n, |s|)..]
  }

  /** Python's `s[:n]`. */
  function SliceTo<T>(s: seq<T>, n: int): seq<T>
  {
    s[..SliceIndex(n, |s|)]
  }

  // ---------------------------------------------------------------------------
  // `list.sort`, which is stable: an insertion sort that places each element after
  // those that sort equal to it.

  predicate NewestFirst(s: seq<Artifact>)
  {
    forall i, j :: 0 <= i < j < |s| ==> s[i].ctime >= s[j].ctime
  }

  /** Places `x` after every element at least as new as it. */
  function InsertByCtime(x: Artifact, s: seq<Artifact>): (r: seq<Artifact>)
    ensures multiset(r) == multiset(s) + multiset{x}
  {
    if s == [] then [x]
    else if s[0].ctime >= x.ctime then
      assert s == [s[0]] + s[1..];
      [s[0]] + InsertByCtime(x, s[1..])
    else
      [x] + s
  }

  lemma {:induction false} InsertByCtimeSorted(x: Artifact, s: seq<Artifact>)
    requires NewestFirst(s)
    ensures NewestFirst(InsertByCtime(x, s))
  {
    if s != [] && s[0].ctime >= x.ctime {
      var rest := InsertByCtime(x, s[1..]);
      InsertByCtimeSorted(x, s[1..]);
      forall i | 0 <= i < |rest| ensures rest[i].ctime <= s[0].ctime {
        assert rest[i] in multiset(s[1..]) + multiset{x} by {
          assert rest[i] in multiset(rest);
        }
      }
    }
  }

  /** `sort(key=ctime, reverse=True)`: the same files, newest first. */
  function SortNewestFirst(s: seq<Artifact>): (r: seq<Artifact>)
    ensures multiset(r) == multiset(s)
    ensures NewestFirst(r)
  {
    if s == [] then []
    else
      assert s == s[..|s| - 1] + [s[|s| - 1]];
      InsertByCtimeSorted(s[|s| - 1], SortNewestFirst(s[..|s| - 1]));
      InsertByCtime(s[|s| - 1], SortNewestFirst(s[..|s| - 1]))
  }

  predicate NamesAscending(s: seq<string>)
  {
    forall i, j :: 0 <= i < j < |s| ==> Strings.LexLe(s[i], s[j])
  }

  /** Places `x` after every name that sorts at or before it. */
  function InsertByName(x: string, s: seq<string>): (r: seq<string>)
    ensures multiset(r) == multiset(s) + multiset{x}
  {
    if s == [] then [x]
    else if Strings.LexLe(s[0], x) then
      assert s == [s[0]] + s[1..];
      [s[0]] + InsertByName(x, s[1..])
    else
      [x] + s
  }

  lemma {:induction false} InsertByNameSorted(x: string, s: seq<string>)
    requires NamesAscending(s)
    ensures NamesAscending(InsertByName(x, s))
  {
    if s != [] {
      if Strings.LexLe(s[0], x) {
        var rest := InsertByName(x, s[1..]);
        InsertByNameSorted(x, s[1..]);
        forall i | 0 <= i < |rest| ensures Strings.LexLe(s[0], rest[i]) {
          assert rest[i] in multiset(s[1..]) + multiset{x} by {
            assert rest[i] in multiset(rest);
          }
        }
      } else {
        Strings.LexLeTotal(s[0], x);
        forall j | 0 <= j < |s| ensures Strings.LexLe(x, s[j]) {
          if j > 0 {
            Strings.LexLeTransitive(x, s[0], s[j]);
          }
        }
      }
    }
  }

  /** `sort()` on names: ascending by code point. */
  function SortNames(s: seq<string>): (r: seq<string>)
    ensures multiset(r) == multiset(s)
    ensures NamesAscending(r)
  {
    if s == [] then []
    else
      assert s == s[..|s| - 1] + [s[|s| - 1]];
      InsertByNameSorted(s[|s| - 1], SortNames(s[..|s| - 1]));
      InsertByName(s[|s| - 1], SortNames(s[..|s| - 1]))
  }

  // ---------------------------------------------------------------------------
  // Filtering a listing.

  /** The elements of `s` that `keep` accepts, in their order. */
  function Filter<T(!new)>(s: seq<T>, keep: T -> bool): (r: seq<T>)
    ensures forall x :: x in r <==> x in s && keep(x)
    ensures |r| <= |s|
  {
    if s == [] then []
    else if keep(s[0]) then [s[0]] + Filter(s[1..], keep)
    else Filter(s[1..], keep)
  }

  /** `s` without the elements in `gone`. */
  function Remove<T(==,!new)>(s: seq<T>, gone: set<T>): seq<T>
  {
    Filter(s, x => x !in gone)
  }

  /** The elements of `s` that are in `among`, in their order. */
  function Only<T(==,!new)>(s: seq<T>, among: set<T>): seq<T>
  {
    Filter(s, x => x in among)
  }

  lemma {:induction false} FilterAppend<T(!new)>(s: seq<T>, x: T, keep: T -> bool)
    ensures Filter(s + [x], keep) == Filter(s, keep) + (if keep(x) then [x] else [])
  {
    if s != [] {
      assert (s + [x])[1..] == s[1..] + [x];
      FilterAppend(s[1..], x, keep);
    }
  }

  lemma {:induction false} RemoveTwice<T(!new)>(s: seq<T>, a: set<T>, b: set<T>)
    ensures Remove(Remove(s, a), b) == Remove(s, a + b)
  {
    if s != [] {
      RemoveTwice(s[1..], a, b);
    }
  }

  lemma OnlyAppend<T(!new)>(s: seq<T>, x: T, among: set<T>)
    ensures Only(s + [x], among) == Only(s, among) + (if x in among then [x] else [])
  {
    FilterAppend(s, x, y => y in among);
  }

  lemma {:induction false} RemoveNothing<T(!new)>(s: seq<T>)
    ensures Remove(s, {}) == s
  {
    if s != [] {
      RemoveNothing(s[1..]);
      assert s == [s[0]] + s[1..];
    }
  }

  lemma {:induction false} FilterDistinct<T(!new)>(s: seq<T>, keep: T -> bool)
    requires Distinct(s)
    ensures Distinct(Filter(s, keep))
  {
    if s != [] {
      FilterDistinct(s[1..], keep);
      assert s[0] !in s[1..];
    }
  }

  lemma {:induction false} RemoveCommutes<T(!new)>(s: seq<T>, keep: T -> bool, gone: set<T>)
    ensures Filter(Remove(s, gone), keep) == Remove(Filter(s, keep), gone)
  {
    if s != [] {
      RemoveCommutes(s[1..], keep, gone);
    }
  }

  // ---------------------------------------------------------------------------
  // What the purge selects.

  /** Whether a file matches the pattern `*` followed by `suffix`. */
  function Suffixed(suffix: string): Artifact -> bool
  {
    (e: Artifact) => Strings.EndsWith(e.name, suffix)
  }

  /** `glob("*" + suffix)` over a directory listing. */
  function Glob(entries: seq<Artifact>, suffix: string): seq<Artifact>
  {
    Filter(entries, Suffixed(suffix))
  }

  /** Whether a feature class name contains `changeset`. */
  function NamesChangeset(): string -> bool
  {
    (fc: string) => Strings.Contains(fc, "changeset")
  }

  /** The feature classes whose name contains `changeset`. */
  function ChangesetTables(names: seq<string>): seq<string>
  {
    Filter(names, NamesChangeset())
  }

  /** A purge runs only for a truthy `retain_after_purge`: neither unset nor 0. */
  predicate Enabled(retain: Option<int>)
  {
    retain.Some? && retain.value != 0
  }

  /** Files of one kind past the first `retain` when sorted newest first. */
  function FilesToDelete(entries: seq<Artifact>, suffix: string, retain: int): seq<Artifact>
  {
    SliceFrom(SortNewestFirst(Glob(entries, suffix)), retain)
  }

  /** Changeset feature classes before the last `retain` when sorted by name. */
  function TablesToDelete(names: seq<string>, retain: int): seq<string>
  {
    SliceTo(SortNames(ChangesetTables(names)), -retain)
  }

  // ---------------------------------------------------------------------------
  // The stores the purge deletes from.

  /** A download directory; deleting a file in `locked` fails. */
  class Directory {
    var entries: seq<Artifact>
    var locked: set<Artifact>

    constructor (entries: seq<Artifact>, locked: set<Artifact>)
      ensures this.entries == entries && this.locked == locked
    {
      this.entries := entries;
      this.locked := locked;
    }

    /**
     * Unlinks each file of `doomed` in turn; a failure is reported in `failed` and
     * the loop goes on with the next file.
     */
    method UnlinkEach(doomed: seq<Artifact>) returns (failed: seq<Artifact>)
      modifies this`entries
      ensures entries == Remove(old(entries), Elements(doomed) - locked)
      ensures failed == Only(doomed, locked)
    {
      failed := [];
      var i := 0;
      RemoveNothing(old(entries));
      assert Elements(doomed[..0]) - locked == {};
      while i < |doomed|
        invariant 0 <= i <= |doomed|
        invariant entries == Remove(old(entries), Elements(doomed[..i]) - locked)
        invariant failed == Only(doomed[..i], locked)
      {
        var file := doomed[i];
        assert doomed[..i + 1] == doomed[..i] + [file];
        OnlyAppend(doomed[..i], file, locked);
        if file in locked {
          failed := failed + [file];
          assert Elements(doomed[..i + 1]) - locked == Elements(doomed[..i]) - locked;
        } else {
          RemoveTwice(old(entries), Elements(doomed[..i]) - locked, {file});
          entries := Remove(entries, {file});
          assert Elements(doomed[..i + 1]) - locked == (Elements(doomed[..i]) - locked) + {file};
        }
        i := i + 1;
      }
      assert doomed[..i] == doomed;
    }
  }

  /** The staging file geodatabase; deleting a feature class in `locked` fails. */
  class Geodatabase {
    var featureClasses: seq<string>
    var locked: set<string>

    constructor (featureClasses: seq<string>, locked: set<string>)
      ensures this.featureClasses == featureClasses && this.locked == locked
    {
      this.featureClasses := featureClasses;
      this.locked := locked;
    }

    /**
     * Deletes each feature class of `doomed` in turn; a failure is reported in
     * `failed` and the loop goes on with the next one.
     */
    method DeleteEach(doomed: seq<string>) returns (failed: seq<string>)
      modifies this`featureClasses
      ensures featureClasses == Remove(old(featureClasses), Elements(doomed) - locked)
      ensures failed == Only(doomed, locked)
    {
      failed := [];
      var i := 0;
      RemoveNothing(old(featureClasses));
      assert Elements(doomed[..0]) - locked == {};
      while i < |doomed|
        invariant 0 <= i <= |doomed|
        invariant featureClasses == Remove(old(featureClasses), Elements(doomed[..i]) - locked)
        invariant failed == Only(doomed[..i], locked)
      {
        var fc := doomed[i];
        assert doomed[..i + 1] == doomed[..i] + [fc];
        OnlyAppend(doomed[..i], fc, locked);
        if fc in locked {
          failed := failed + [fc];
          assert Elements(doomed[..i + 1]) - locked == Elements(doomed[..i]) - locked;
        } else {
          RemoveTwice(old(featureClasses), Elements(doomed[..i]) - locked, {fc});
          featureClasses := Remove(featureClasses, {fc});
          assert Elements(doomed[..i + 1]) - locked == (Elements(doomed[..i]) - locked) + {fc};
        }
        i := i + 1;
      }
      assert doomed[..i] == doomed;
    }
  }

  /** One file loop of `purgeChangesets`: sort the matching files newest first and unlink those past the first `retain`. */
  method PurgeFiles(dir: Directory, suffix: string, retain: int) returns (failed: seq<Artifact>)
    modifies dir`entries
    ensures dir.entries == Remove(old(dir.entries), Elements(FilesToDelete(old(dir.entries), suffix, retain)) - dir.locked)
    ensures failed == Only(FilesToDelete(old(dir.entries), suffix, retain), dir.locked)
  {
    var files := SortNewestFirst(Glob(dir.entries, suffix));
    failed := dir.UnlinkEach(SliceFrom(files, retain));
  }

  /** The feature-class loop of `purgeChangesets`: sort the changeset tables by name and delete all but the last `retain`. */
  method PurgeTables(staging: Geodatabase, retain: int) returns (failed: seq<string>)
    modifies staging`featureClasses
    ensures staging.featureClasses == Remove(old(staging.featureClasses), Elements(TablesToDelete(old(staging.featureClasses), retain)) - staging.locked)
    ensures failed == Only(TablesToDelete(old(staging.featureClasses), retain), staging.locked)
  {
    var tables := SortNames(ChangesetTables(staging.featureClasses));
    failed := staging.DeleteEach(SliceTo(tables, -retain));
  }

  /**
   * `purgeChangesets`: with a truthy `retain`, purges the changeset files, the full
   * download archives and the changeset feature classes in that order; otherwise
   * changes nothing. Returns the files and feature classes whose deletion failed.
   */
  method PurgeChangesets(changesets: Directory, full: Directory, staging: Geodatabase, retain: Option<int>)
    returns (failedFiles: seq<Artifact>, failedTables: seq<string>)
    requires changesets != full
    modifies changesets`entries, full`entries, staging`featureClasses
    ensures !Enabled(retain) ==>
      changesets.entries == old(changesets.entries) && full.entries == old(full.entries) &&
      staging.featureClasses == old(staging.featureClasses) && failedFiles == [] && failedTables == []
    ensures Enabled(retain) ==>
      var jsons := FilesToDelete(old(changesets.entries), ".json", retain.value);
      var zips := FilesToDelete(old(full.entries), ".zip", retain.value);
      var tables := TablesToDelete(old(staging.featureClasses), retain.value);
      changesets.entries == Remove(old(changesets.entries), Elements(jsons) - changesets.locked) &&
      full.entries == Remove(old(full.entries), Elements(zips) - full.locked) &&
      staging.featureClasses == Remove(old(staging.featureClasses), Elements(tables) - staging.locked) &&
      failedFiles == Only(jsons, changesets.locked) + Only(zips, full.locked) &&
      failedTables == Only(tables, staging.locked)
  {
    if !Enabled(retain) {
      return [], [];
    }
    var failedJson := PurgeFiles(changesets, ".json", retain.value);
    var failedZip := PurgeFiles(full, ".zip", retain.value);
    failedFiles := failedJson + failedZip;
    failedTables := PurgeTables(staging, retain.value);
  }

  // ---------------------------------------------------------------------------
  // What a purge keeps.

  function Min(a: int, b: int): int
  {
    if a <= b then a else b
  }

  /** A permutation of a sequence without repeats has no repeats. */
  lemma PermutationDistinct<T>(a: seq<T>, b: seq<T>)
    requires multiset(a) == multiset(b) && Distinct(a)
    ensures Distinct(b) && Elements(a) == Elements(b)
  {
    SameElements(a, b);
    DistinctCard(a);
    DistinctCard(b);
  }

  /** Cutting a sequence without repeats splits its elements into two disjoint sets. */
  lemma {:induction false} SplitDistinct<T>(s: seq<T>, k: nat)
    requires Distinct(s) && k <= |s|
    ensures Elements(s) - Elements(s[k..]) == Elements(s[..k])
    ensures Elements(s) - Elements(s[..k]) == Elements(s[k..])
    ensures |Elements(s[..k])| == k && |Elements(s[k..])| == |s| - k
  {
    assert s == s[..k] + s[k..];
    assert Distinct(s[..k]) by {
      forall i, j | 0 <= i < j < k ensures s[..k][i] != s[..k][j] {
        assert s[..k][i] == s[i] && s[..k][j] == s[j];
      }
    }
    assert Distinct(s[k..]) by {
      forall i, j | 0 <= i < j < |s| - k ensures s[k..][i] != s[k..][j] {
        assert s[k..][i] == s[k + i] && s[k..][j] == s[k + j];
      }
    }
    DistinctCard(s[..k]);
    DistinctCard(s[k..]);
  }

  /** After removing `gone` from a list without repeats, its length is what is left of its elements. */
  lemma RemainingCount<T(!new)>(s: seq<T>, gone: set<T>)
    requires Distinct(s)
    ensures |Remove(s, gone)| == |Elements(s) - gone|
  {
    FilterDistinct(s, x => x !in gone);
    DistinctCard(Remove(s, gone));
    assert Elements(Remove(s, gone)) == Elements(s) - gone;
  }

  /** After a purge of one directory, files of a kind other than `suffix` are all still there. */
  lemma OtherFilesSurvive(entries: seq<Artifact>, suffix: string, retain: int, locked: set<Artifact>)
    ensures forall e :: e in entries && !Strings.EndsWith(e.name, suffix) ==>
      e in Remove(entries, Elements(FilesToDelete(entries, suffix, retain)) - locked)
  {
    var matching := Glob(entries, suffix);
    var sorted := SortNewestFirst(matching);
    forall e | e in entries && !Strings.EndsWith(e.name, suffix)
      ensures e !in FilesToDelete(entries, suffix, retain)
    {
      assert e !in multiset(matching);
      assert e !in sorted;
    }
  }

  /**
   * With a positive `retain` and no failed deletion, the purge of one directory
   * leaves exactly min(retain, M) of the M files that match `suffix`.
   */
  lemma NewestFilesCount(entries: seq<Artifact>, suffix: string, retain: int)
    requires retain > 0 && Distinct(entries)
    ensures |Glob(Remove(entries, Elements(FilesToDelete(entries, suffix, retain))), suffix)|
      == Min(retain, |Glob(entries, suffix)|)
  {
    var matching := Glob(entries, suffix);
    var sorted := SortNewestFirst(matching);
    var k := SliceIndex(retain, |sorted|);
    var gone := Elements(FilesToDelete(entries, suffix, retain));
    assert gone == Elements(sorted[k..]);
    FilterDistinct(entries, Suffixed(suffix));
    PermutationDistinct(matching, sorted);
    SplitDistinct(sorted, k);
    RemoveCommutes(entries, Suffixed(suffix), gone);
    RemainingCount(matching, gone);
  }

  /** Every matching file a purge leaves is at least as new as every file it deletes. */
  lemma NewestFilesKept(entries: seq<Artifact>, suffix: string, retain: int, locked: set<Artifact>)
    ensures var doomed := FilesToDelete(entries, suffix, retain);
      forall e, d :: e in Glob(Remove(entries, Elements(doomed) - locked), suffix) && e !in locked && d in doomed
        ==> e.ctime >= d.ctime
  {
    var matching := Glob(entries, suffix);
    var sorted := SortNewestFirst(matching);
    var k := SliceIndex(retain, |sorted|);
    var doomed := FilesToDelete(entries, suffix, retain);
    assert doomed == sorted[k..];
    forall e, d | e in Glob(Remove(entries, Elements(doomed) - locked), suffix) && e !in locked && d in doomed
      ensures e.ctime >= d.ctime
    {
      assert e in matching;
      assert e in multiset(sorted) by { assert e in multiset(matching); }
      var i :| 0 <= i < |sorted| && sorted[i] == e;
      var j :| 0 <= j < |sorted| - k && sorted[k..][j] == d;
    }
  }

  /** The purge never deletes a feature class whose name lacks `changeset`, whatever `retain` is. */
  lemma OtherTablesSurvive(names: seq<string>, retain: int, locked: set<string>)
    ensures forall fc :: fc in names && !Strings.Contains(fc, "changeset") ==>
      fc in Remove(names, Elements(TablesToDelete(names, retain)) - locked)
  {
    var tables := ChangesetTables(names);
    var sorted := SortNames(tables);
    forall fc | fc in names && !Strings.Contains(fc, "changeset")
      ensures fc !in TablesToDelete(names, retain)
    {
      assert fc !in multiset(tables);
      assert fc !in sorted;
    }
  }

  /**
   * With a positive `retain` and no failed deletion, exactly min(retain, M) of the M
   * changeset feature classes remain.
   */
  lemma GreatestTablesCount(names: seq<string>, retain: int)
    requires retain > 0 && Distinct(names)
    ensures |ChangesetTables(Remove(names, Elements(TablesToDelete(names, retain))))|
      == Min(retain, |ChangesetTables(names)|)
  {
    var tables := ChangesetTables(names);
    var sorted := SortNames(tables);
    var k := SliceIndex(-retain, |sorted|);
    var gone := Elements(TablesToDelete(names, retain));
    assert gone == Elements(sorted[..k]);
    FilterDistinct(names, NamesChangeset());
    PermutationDistinct(tables, sorted);
    SplitDistinct(sorted, k);
    RemoveCommutes(names, NamesChangeset(), gone);
    RemainingCount(tables, gone);
  }

  /** Every changeset feature class a purge leaves sorts after every one it deletes. */
  lemma GreatestTablesKept(names: seq<string>, retain: int, locked: set<string>)
    ensures var doomed := TablesToDelete(names, retain);
      forall fc, d :: fc in ChangesetTables(Remove(names, Elements(doomed) - locked)) && fc !in locked && d in doomed
        ==> Strings.LexLe(d, fc)
  {
    var tables := ChangesetTables(names);
    var sorted := SortNames(tables);
    var k := SliceIndex(-retain, |sorted|);
    var doomed := TablesToDelete(names, retain);
    assert doomed == sorted[..k];
    forall fc, d | fc in ChangesetTables(Remove(names, Elements(doomed) - locked)) && fc !in locked && d in doomed
      ensures Strings.LexLe(d, fc)
    {
      assert fc in tables;
      assert fc in multiset(sorted) by { assert fc in multiset(tables); }
      var i :| 0 <= i < |sorted| && sorted[i] == fc;
      var j :| 0 <= j < k && sorted[..k][j] == d;
    }
  }
}
