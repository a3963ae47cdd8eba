/**
 * `applyChangeset`: the DELETE rows of a changeset remove target rows by id, the
 * INSERT rows are appended, the UPDATE rows go through `processUpdates`, and the
 * resulting row count is compared with the expected one.
 */
module Changeset {
  import opened Wrappers
  import opened Tables
  import Strings
  import opened Updates

  /** `SelectLayerByAttribute(..., "__change__ = '<tag>'")`: rows with exactly that tag. */
  function CountTagged(rows: seq<Row>, tag: string): (n: nat)
    ensures n <= |rows|
  {
    if rows == [] then 0
    else (if Tagged(rows[0], tag) then 1 else 0) + CountTagged(rows[1..], tag)
  }

  /** `LOWER(__change__) = 'delete'`: the delete rows, whatever the case of their tag. */
  predicate MarkedDelete(row: Row)
  {
    ChangeField in row && row[ChangeField].Text? && Strings.Lower(row[ChangeField].s) == "delete"
  }

  /** The ids of the delete rows; the SQL `IN` list compares numbers by value. */
  function DeleteIdSet(rows: seq<Row>, idKey: string): (ids: set<Value>)
    requires forall i :: 0 <= i < |rows| ==> idKey in rows[i]
    ensures forall i :: 0 <= i < |rows| && MarkedDelete(rows[i]) ==> PyKey(rows[i][idKey]) in ids
    ensures forall k :: k in ids ==> exists i :: 0 <= i < |rows| && MarkedDelete(rows[i]) && PyKey(rows[i][idKey]) == k
  {
    if rows == [] then {}
    else
      var rest := DeleteIdSet(rows[1..], idKey);
      assert forall i :: 0 <= i < |rows[1..]| ==> rows[1..][i] == rows[i + 1];
      (if MarkedDelete(rows[0]) then {PyKey(rows[0][idKey])} else {}) + rest
  }

  /** The target rows left by `DeleteRows` on the layer `<id_field> in (<ids>)`. */
  function AfterDeletes(rows: seq<Row>, ids: set<Value>, idKey: string): (r: seq<Row>)
    requires forall i :: 0 <= i < |rows| ==> idKey in rows[i]
    ensures forall x :: x in r ==> x in rows && PyKey(x[idKey]) !in ids
    ensures forall i :: 0 <= i < |rows| && PyKey(rows[i][idKey]) !in ids ==> rows[i] in r
    ensures |r| == |rows| - CountIn(rows, ids, idKey)
  {
    if rows == [] then []
    else
      assert forall i :: 0 <= i < |rows[1..]| ==> rows[1..][i] == rows[i + 1];
      (if PyKey(rows[0][idKey]) in ids then [] else [rows[0]]) + AfterDeletes(rows[1..], ids, idKey)
  }

  /** One target row: it is deleted exactly when its id is in the list. */
  lemma AfterDeletesOne(row: Row, ids: set<Value>, idKey: string)
    requires idKey in row
    ensures AfterDeletes([row], ids, idKey) == if PyKey(row[idKey]) in ids then [] else [row]
  {
    assert [row][1..] == [];
  }

  /** Deleting keeps the surviving rows in their order: `AfterDeletes` distributes over concatenation. */
  lemma {:induction false} AfterDeletesAppend(a: seq<Row>, b: seq<Row>, ids: set<Value>, idKey: string)
    requires forall i :: 0 <= i < |a| ==> idKey in a[i]
    requires forall i :: 0 <= i < |b| ==> idKey in b[i]
    ensures AfterDeletes(a + b, ids, idKey) == AfterDeletes(a, ids, idKey) + AfterDeletes(b, ids, idKey)
  {
    if a == [] {
      assert a + b == b;
    } else {
      var ab := a + b;
      assert ab[0] == a[0] && ab[1..] == a[1..] + b;
      AfterDeletesAppend(a[1..], b, ids, idKey);
    }
  }

  /** How many rows have an id among `ids`. */
  function CountIn(rows: seq<Row>, ids: set<Value>, idKey: string): (n: nat)
    requires forall i :: 0 <= i < |rows| ==> idKey in rows[i]
    ensures n <= |rows|
  {
    if rows == [] then 0
    else
      assert forall i :: 0 <= i < |rows[1..]| ==> rows[1..][i] == rows[i + 1];
      (if PyKey(rows[0][idKey]) in ids then 1 else 0) + CountIn(rows[1..], ids, idKey)
  }

  /** An INSERT row as `Append` with `NO_TEST` stores it: fields matched by name, the rest null. */
  function Project(row: Row, keys: set<string>): (r: Row)
    ensures r.Keys == keys
    ensures forall k :: k in keys && k in row ==> r[k] == row[k]
    ensures forall k :: k in keys && k !in row ==> r[k] == Null
  {
    map k | k in keys :: if k in row then row[k] else Null
  }

  /** The rows `Append` adds with the expression `__change__ = 'INSERT'`, in order. */
  function Inserted(rows: seq<Row>, keys: set<string>): (r: seq<Row>)
    ensures |r| == CountTagged(rows, "INSERT")
    ensures forall i :: 0 <= i < |r| ==> r[i].Keys == keys
    ensures forall x :: x in r ==> exists j :: 0 <= j < |rows| && Tagged(rows[j], "INSERT") && x == Project(rows[j], keys)
  {
    if rows == [] then []
    else
      assert forall j :: 0 <= j < |rows[1..]| ==> rows[1..][j] == rows[j + 1];
      (if Tagged(rows[0], "INSERT") then [Project(rows[0], keys)] else []) + Inserted(rows[1..], keys)
  }

  /** One changeset row: an INSERT row is appended as projected onto the target's fields, any other is not. */
  lemma InsertedOne(row: Row, keys: set<string>)
    ensures Inserted([row], keys) == if Tagged(row, "INSERT") then [Project(row, keys)] else []
  {
    assert [row][1..] == [];
  }

  /** The INSERT rows are appended in changeset order: `Inserted` distributes over concatenation. */
  lemma {:induction false} InsertedAppend(a: seq<Row>, b: seq<Row>, keys: set<string>)
    ensures Inserted(a + b, keys) == Inserted(a, keys) + Inserted(b, keys)
  {
    if a == [] {
      assert a + b == b;
    } else {
      assert (a + b)[0] == a[0] && (a + b)[1..] == a[1..] + b;
      InsertedAppend(a[1..], b, keys);
    }
  }

  /**
   * The target after the delete and insert steps (LINZ_WFS.py:883-915), or the
   * `arcpy` error for an id field one of the tables lacks. Deleting happens only
   * when the exact-case DELETE count is positive, but then uses the
   * case-insensitive id list.
   */
  function Stage(rows: seq<Row>, targetKeys: set<string>, changes: seq<Row>, changeKeys: set<string>, idField: string)
    : (r: Result<seq<Row>>)
    requires forall i :: 0 <= i < |rows| ==> rows[i].Keys == targetKeys
    requires forall i :: 0 <= i < |changes| ==> changes[i].Keys == changeKeys
    ensures r.Fail? <==> KeyOf(idField) !in changeKeys
                         || (CountTagged(changes, "DELETE") > 0 && KeyOf(idField) !in targetKeys)
    ensures r.Fail? ==> r.stop == Raised(RuntimeError)
    ensures r.Ok? && CountTagged(changes, "DELETE") == 0 ==> |rows| <= |r.value| && r.value[..|rows|] == rows
    ensures r.Ok? ==> |r.value| == |rows| - (if CountTagged(changes, "DELETE") > 0
                                            then CountIn(rows, DeleteIdSet(changes, KeyOf(idField)), KeyOf(idField))
                                            else 0) + CountTagged(changes, "INSERT")
    ensures r.Ok? ==> forall i :: 0 <= i < |r.value| ==> r.value[i].Keys == targetKeys
    ensures r.Ok? ==> r.value == (if CountTagged(changes, "DELETE") > 0
                                  then AfterDeletes(rows, DeleteIdSet(changes, KeyOf(idField)), KeyOf(idField))
                                  else rows) + Inserted(changes, targetKeys)
  {
    var idKey := KeyOf(idField);
    if idKey !in changeKeys then Fail(Raised(RuntimeError))
    else if CountTagged(changes, "DELETE") > 0 && idKey !in targetKeys then Fail(Raised(RuntimeError))
    else
      var kept := if CountTagged(changes, "DELETE") > 0
                  then AfterDeletes(rows, DeleteIdSet(changes, idKey), idKey)
                  else rows;
      assert forall x :: x in kept ==> x.Keys == targetKeys;
      Ok(if CountTagged(changes, "INSERT") > 0 then kept + Inserted(changes, targetKeys) else kept)
  }

  /** The counts `applyChangeset` logs, and the warning it gives on a mismatch. */
  datatype Report = Report(
    changes: nat, before: nat, inserts: nat, updates: nat, deletes: nat, after: nat,
    outBy: Option<int>)   // `expected_total - final_total` when they differ

  function Summary(before: nat, changes: seq<Row>, after: nat): (r: Report)
    ensures r.outBy.None? <==> after == before - r.deletes + r.inserts
    ensures r.outBy.Some? ==> r.outBy.value == before - r.deletes + r.inserts - after
  {
    var inserts := CountTagged(changes, "INSERT");
    var deletes := CountTagged(changes, "DELETE");
    var expected := before - deletes + inserts;
    Report(|changes|, before, inserts, CountTagged(changes, "UPDATE"), deletes, after,
           if expected != after then Some(expected - after) else None)
  }

  /** The delete and insert steps of `applyChangeset` (LINZ_WFS.py:883-915), on the target's rows. */
  method DeleteAndInsert(changeset: FeatureClass, target: FeatureClass, idField: string) returns (err: Option<Stop>)
    requires changeset.Valid() && target.Valid() && changeset != target
    modifies target`rows
    ensures target.Valid()
    ensures var s := Stage(old(target.rows), KeySet(target.fields), changeset.rows, KeySet(changeset.fields), idField);
            && (s.Fail? ==> err == Some(s.stop) && target.rows == old(target.rows))
            && (s.Ok? ==> err.None? && target.rows == s.value)
  {
    var inserts := CountTagged(changeset.rows, "INSERT");
    var deletes := CountTagged(changeset.rows, "DELETE");
    var idKey := KeyOf(idField);
    ghost var rows0 := target.rows;
    ghost var s := Stage(rows0, KeySet(target.fields), changeset.rows, KeySet(changeset.fields), idField);
    if idKey !in KeySet(changeset.fields) {
      return Some(Raised(RuntimeError));   // the search cursor on `[id_field]`
    }
    var deleteIds := DeleteIdSet(changeset.rows, idKey);
    if deletes > 0 {
      if idKey !in KeySet(target.fields) {
        return Some(Raised(RuntimeError));   // the where clause on the target layer
      }
      target.rows := AfterDeletes(target.rows, deleteIds, idKey);
    }
    ghost var kept := target.rows;
    assert forall x :: x in kept ==> x.Keys == KeySet(target.fields);
    if inserts > 0 {
      target.rows := target.rows + Inserted(changeset.rows, KeySet(target.fields));
    }
    assert s == Ok(target.rows);
    return None;
  }

  /**
   * `applyChangeset(changeset, target_fc)` (LINZ_WFS.py:835-929). A mismatch between
   * the expected and the final row count is reported, never an error.
   */
  method ApplyChangeset(changeset: FeatureClass, target: FeatureClass, idField: string) returns (r: Result<Report>)
    requires changeset.Valid() && target.Valid() && changeset != target
    modifies target
    ensures target.Valid()
    ensures target.fields == old(target.fields) && target.indexes == old(target.indexes)
    ensures var s := Stage(old(target.rows), KeySet(target.fields), changeset.rows, KeySet(changeset.fields), idField);
            s.Fail? ==> r == Fail(s.stop) && target.rows == old(target.rows)
    ensures var s := Stage(old(target.rows), KeySet(target.fields), changeset.rows, KeySet(changeset.fields), idField);
            s.Ok? && CountTagged(changeset.rows, "UPDATE") == 0 ==> r.Ok? && target.rows == s.value
    ensures var s := Stage(old(target.rows), KeySet(target.fields), changeset.rows, KeySet(changeset.fields), idField);
            var d := UpdatesDict(changeset.rows, idField, SourceFields(changeset.fields, target.fields));
            s.Ok? && CountTagged(changeset.rows, "UPDATE") > 0 ==>
              && (d.Fail? ==> r == Fail(d.stop) && target.rows == s.value)
              && (d.Ok? ==> Updated(MakePlan(idField, changeset.fields, target.fields, d.value), s.value, target.rows,
                                    if r.Ok? then None else Some(r.stop)))
    ensures r.Ok? ==> r.value == Summary(|old(target.rows)|, changeset.rows, |target.rows|)
  {
    var before := |target.rows|;
    var err := DeleteAndInsert(changeset, target, idField);
    if err.Some? {
      return Fail(err.value);
    }
    if CountTagged(changeset.rows, "UPDATE") > 0 {
      err := ProcessUpdates(changeset, target, idField);
      if err.Some? {
        return Fail(err.value);
      }
    }
    return Ok(Summary(before, changeset.rows, |target.rows|));
  }

  // ---------------------------------------------------------------------------
  // When the expected row count is met.

  /** Every delete row carries the tag in upper case. */
  predicate ExactDeleteTags(changes: seq<Row>)
  {
    forall i :: 0 <= i < |changes| && MarkedDelete(changes[i]) ==> Tagged(changes[i], "DELETE")
  }

  /** No two delete rows carry the same id. */
  predicate DistinctDeleteIds(changes: seq<Row>, idKey: string)
    requires forall i :: 0 <= i < |changes| ==> idKey in changes[i]
  {
    forall i, j :: 0 <= i < j < |changes| && MarkedDelete(changes[i]) && MarkedDelete(changes[j]) ==>
      PyKey(changes[i][idKey]) != PyKey(changes[j][idKey])
  }

  /** How many rows carry the id `k`. */
  function CountKey(rows: seq<Row>, k: Value, idKey: string): nat
    requires forall i :: 0 <= i < |rows| ==> idKey in rows[i]
  {
    if rows == [] then 0
    else
      assert forall i :: 0 <= i < |rows[1..]| ==> rows[1..][i] == rows[i + 1];
      (if PyKey(rows[0][idKey]) == k then 1 else 0) + CountKey(rows[1..], k, idKey)
  }

  /** Each of `ids` is the id of exactly one row. */
  predicate EachMatchesOnce(rows: seq<Row>, ids: set<Value>, idKey: string)
    requires forall i :: 0 <= i < |rows| ==> idKey in rows[i]
  {
    forall k :: k in ids ==> CountKey(rows, k, idKey) == 1
  }

  function CountMarked(rows: seq<Row>): nat
  {
    if rows == [] then 0
    else (if MarkedDelete(rows[0]) then 1 else 0) + CountMarked(rows[1..])
  }

  lemma TaggedDeleteIsMarked(row: Row)
    requires Tagged(row, "DELETE")
    ensures MarkedDelete(row)
  {
    var lowered := Strings.Lower("DELETE");
    assert lowered[0] == 'd' && lowered[1] == 'e' && lowered[2] == 'l';
    assert lowered[3] == 'e' && lowered[4] == 't' && lowered[5] == 'e';
    assert lowered == "delete";
  }

  lemma {:induction false} CountMarkedExact(rows: seq<Row>)
    requires ExactDeleteTags(rows)
    ensures CountMarked(rows) == CountTagged(rows, "DELETE")
  {
    if rows != [] {
      assert forall i :: 0 <= i < |rows[1..]| ==> rows[1..][i] == rows[i + 1];
      if Tagged(rows[0], "DELETE") {
        TaggedDeleteIsMarked(rows[0]);
      }
      CountMarkedExact(rows[1..]);
    }
  }

  lemma {:induction false} DeleteIdsDistinct(rows: seq<Row>, idKey: string)
    requires forall i :: 0 <= i < |rows| ==> idKey in rows[i]
    requires DistinctDeleteIds(rows, idKey)
    ensures |DeleteIdSet(rows, idKey)| == CountMarked(rows)
  {
    if rows != [] {
      var tail := rows[1..];
      assert forall i :: 0 <= i < |tail| ==> tail[i] == rows[i + 1];
      DeleteIdsDistinct(tail, idKey);
      if MarkedDelete(rows[0]) {
        assert PyKey(rows[0][idKey]) !in DeleteIdSet(tail, idKey);
      }
    }
  }

  lemma {:induction false} CountInSplit(rows: seq<Row>, ids: set<Value>, k: Value, idKey: string)
    requires forall i :: 0 <= i < |rows| ==> idKey in rows[i]
    requires k in ids
    ensures CountIn(rows, ids, idKey) == CountIn(rows, ids - {k}, idKey) + CountKey(rows, k, idKey)
  {
    if rows != [] {
      assert forall i :: 0 <= i < |rows[1..]| ==> rows[1..][i] == rows[i + 1];
      CountInSplit(rows[1..], ids, k, idKey);
    }
  }

  lemma {:induction false} CountInNone(rows: seq<Row>, idKey: string)
    requires forall i :: 0 <= i < |rows| ==> idKey in rows[i]
    ensures CountIn(rows, {}, idKey) == 0
  {
    if rows != [] {
      assert forall i :: 0 <= i < |rows[1..]| ==> rows[1..][i] == rows[i + 1];
      CountInNone(rows[1..], idKey);
    }
  }

  lemma {:induction false} CountInOnce(rows: seq<Row>, ids: set<Value>, idKey: string)
    requires forall i :: 0 <= i < |rows| ==> idKey in rows[i]
    requires EachMatchesOnce(rows, ids, idKey)
    ensures CountIn(rows, ids, idKey) == |ids|
    decreases |ids|
  {
    if ids == {} {
      CountInNone(rows, idKey);
    } else {
      var k :| k in ids;
      CountInSplit(rows, ids, k, idKey);
      CountInOnce(rows, ids - {k}, idKey);
    }
  }

  /**
   * When the tags are in upper case, the delete ids are distinct and each names
   * exactly one target row, the target ends with
   * `count_target - count_deletes + count_inserts` rows (LINZ_WFS.py:924), so no
   * warning is given: the update pass adds and removes no row.
   */
  lemma RowCountAddsUp(rows: seq<Row>, targetKeys: set<string>, changes: seq<Row>, changeKeys: set<string>, idField: string)
    requires forall i :: 0 <= i < |rows| ==> rows[i].Keys == targetKeys
    requires forall i :: 0 <= i < |changes| ==> changes[i].Keys == changeKeys
    requires KeyOf(idField) in targetKeys && KeyOf(idField) in changeKeys
    requires ExactDeleteTags(changes) && DistinctDeleteIds(changes, KeyOf(idField))
    requires EachMatchesOnce(rows, DeleteIdSet(changes, KeyOf(idField)), KeyOf(idField))
    ensures Stage(rows, targetKeys, changes, changeKeys, idField).Ok?
    ensures |Stage(rows, targetKeys, changes, changeKeys, idField).value|
            == |rows| - CountTagged(changes, "DELETE") + CountTagged(changes, "INSERT")
  {
    var idKey := KeyOf(idField);
    CountInOnce(rows, DeleteIdSet(changes, idKey), idKey);
    DeleteIdsDistinct(changes, idKey);
    CountMarkedExact(changes);
  }

  lemma IdKey()
    ensures KeyOf("id") == "id"
  {
    var idKey := KeyOf("id");
    assert idKey[0] == 'i' && idKey[1] == 'd';
  }

  lemma LowerCaseTagMarked(id: Value)
    ensures MarkedDelete(map[ChangeField := Text("delete"), "id" := id])
  {
    var lowered := Strings.Lower("delete");
    assert lowered[0] == 'd' && lowered[1] == 'e' && lowered[2] == 'l';
    assert lowered[3] == 'e' && lowered[4] == 't' && lowered[5] == 'e';
  }

  /** A lone delete row tagged in lower case deletes nothing. */
  lemma LoneLowerCaseDeleteKeepsAll()
    ensures var target := [map["id" := Int(1)], map["id" := Int(2)]];
            var lower := map[ChangeField := Text("delete"), "id" := Int(1)];
            Stage(target, {"id"}, [lower], {ChangeField, "id"}, "id") == Ok(target)
  {
    var lower := map[ChangeField := Text("delete"), "id" := Int(1)];
    IdKey();
    assert CountTagged([lower], "DELETE") == 0;
    assert CountTagged([lower], "INSERT") == 0;
  }

  /** Beside a row tagged `DELETE`, the row tagged `delete` is deleted as well. */
  lemma LowerCaseDeleteBesideUpperCase()
    ensures var target := [map["id" := Int(1)], map["id" := Int(2)]];
            var lower := map[ChangeField := Text("delete"), "id" := Int(1)];
            var upper := map[ChangeField := Text("DELETE"), "id" := Int(2)];
            Stage(target, {"id"}, [lower, upper], {ChangeField, "id"}, "id") == Ok([])
  {
    var target := [map["id" := Int(1)], map["id" := Int(2)]];
    var lower := map[ChangeField := Text("delete"), "id" := Int(1)];
    var upper := map[ChangeField := Text("DELETE"), "id" := Int(2)];
    IdKey();
    LowerCaseTagMarked(Int(1));
    TaggedDeleteIsMarked(upper);
    assert [lower, upper][1..] == [upper];
    assert CountTagged([lower, upper], "DELETE") == 1;
    assert CountTagged([lower, upper], "INSERT") == 0;
    assert DeleteIdSet([lower, upper], "id") == {Int(1), Int(2)};
    assert AfterDeletes(target, {Int(1), Int(2)}, "id") == [] by {
      assert target[1..] == [map["id" := Int(2)]];
    }
  }

  /**
   * The exact-case count and the case-insensitive id list disagree on a tag in
   * lower case: a changeset whose only delete row is tagged `delete` deletes
   * nothing, while next to a row tagged `DELETE` the same row is deleted too.
   */
  lemma LowerCaseDeleteNeedsAnUpperCaseOne()
    ensures var target := [map["id" := Int(1)], map["id" := Int(2)]];
            var lower := map[ChangeField := Text("delete"), "id" := Int(1)];
            var upper := map[ChangeField := Text("DELETE"), "id" := Int(2)];
            && Stage(target, {"id"}, [lower], {ChangeField, "id"}, "id") == Ok(target)
            && Stage(target, {"id"}, [lower, upper], {ChangeField, "id"}, "id") == Ok([])
  {
    LoneLowerCaseDeleteKeepsAll();
    LowerCaseDeleteBesideUpperCase();
  }
}
