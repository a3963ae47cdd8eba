/**
 * `processUpdates`: the UPDATE rows of a changeset are gathered in a dictionary
 * keyed by id, and one pass over the target overwrites every row whose id is a key.
 */
module Updates {
  import opened Wrappers
  import opened Tables
  import Dates

  type Row = map<string, Value>

  const ChangeField := "__change__"

  /** `__change__ = '<tag>'` in a where clause: an exact, case-sensitive match. */
  predicate Tagged(row: Row, tag: string)
  {
    ChangeField in row && row[ChangeField] == Text(tag)
  }

  /** Python dictionary keys: an integral float is the same key as the integer. */
  function PyKey(v: Value): Value
  {
    match v
    case Real(x) => if x == x.Floor as real then Int(x.Floor) else v
    case _ => v
  }

  /** `Describe(fc).get("OIDFieldName")` and the like: the first field of that type, `""` if none. */
  function DescribedName(fields: seq<Field>, kind: FieldType): string
  {
    if fields == [] then ""
    else if fields[0].kind == kind then fields[0].name
    else DescribedName(fields[1..], kind)
  }

  /** `exclude_fields`: the names as `Describe` reports them, not lower-cased. */
  function ExcludeList(source: seq<Field>, target: seq<Field>): seq<string>
  {
    [DescribedName(source, GlobalID), DescribedName(source, OID),
     DescribedName(target, GlobalID), DescribedName(target, OID)]
  }

  /** The lower-cased field names of a table, without those in `exclude`. */
  function CursorFields(fields: seq<Field>, exclude: seq<string>): (r: seq<string>)
    ensures forall k :: k in r ==> k in KeySet(fields) && k !in exclude
    ensures forall i :: 0 <= i < |fields| && KeyOf(fields[i].name) !in exclude ==> KeyOf(fields[i].name) in r
  {
    if fields == [] then []
    else
      var rest := CursorFields(fields[1..], exclude);
      assert forall i :: 0 <= i < |fields[1..]| ==> fields[1..][i] == fields[i + 1];
      assert KeySet(fields[1..]) <= KeySet(fields);
      if KeyOf(fields[0].name) in exclude then rest else [KeyOf(fields[0].name)] + rest
  }

  /** The lower-cased names of the fields of one of the given types. */
  function KeysOfKind(fields: seq<Field>, kinds: set<FieldType>): set<string>
  {
    set i | 0 <= i < |fields| && fields[i].kind in kinds :: KeyOf(fields[i].name)
  }

  /** Every key of `keys` names a cell of `row`. */
  predicate Holds(row: Row, keys: seq<string>)
  {
    forall i :: 0 <= i < |keys| ==> keys[i] in row
  }

  /** What the update pass works from, as `processUpdates` computes it before its loops. */
  datatype Plan = Plan(
    idField: string,
    sourceFields: seq<string>,
    targetFields: seq<string>,
    dateFields: set<string>,
    readOnly: set<string>,     // OID and GlobalID columns: `updateRow` is taken to leave them unchanged
    updates: map<Value, Row>)

  /** Every stored UPDATE row can be read through the source cursor's fields. */
  predicate PlanFits(plan: Plan)
  {
    forall k :: k in plan.updates ==> Holds(plan.updates[k], plan.sourceFields)
  }

  /** `datetime.strptime(val, '%Y-%m-%dT%H:%M:%SZ')`. */
  function Strptime(v: Value): (r: Result<Value>)
    ensures r.Ok? <==> v.Text? && Dates.ParseDateTime(v.s).Some?
    ensures r.Ok? ==> r.value.When? && Dates.ValidDateTime(r.value.t) && Dates.FormatDateTime(r.value.t) == v.s
    ensures r.Fail? ==> r.stop == Raised(if v.Text? then ValueError else TypeError)
  {
    if !v.Text? then Fail(Raised(TypeError))
    else match Dates.ParseDateTime(v.s)
      case None => Fail(Raised(ValueError))
      case Some(d) => Ok(When(d))
  }

  /** The value the update writes into the target field `f`, read from the UPDATE row `source`. */
  function CellFor(plan: Plan, source: Row, f: string): Result<Value>
    requires Holds(source, plan.sourceFields)
  {
    if f !in plan.sourceFields then Fail(Raised(ValueError))   // `source_fields.index(field)`
    else if f in plan.dateFields then Strptime(source[f])
    else Ok(source[f])
  }

  /**
   * The loop over `target_fields` for one matched row (LINZ_WFS.py:974-980): each
   * writable field takes its value from the UPDATE row; the first field that cannot
   * be read or parsed raises, and the row is then not written.
   */
  function AssignFields(plan: Plan, fields: seq<string>, source: Row, row: Row): (r: Result<Row>)
    requires Holds(source, plan.sourceFields) && Holds(row, fields)
    ensures r.Ok? ==> r.value.Keys == row.Keys
    decreases |fields|
  {
    if fields == [] then Ok(row)
    else
      var tail := fields[1..];
      assert forall i :: 0 <= i < |tail| ==> tail[i] == fields[i + 1];
      match CellFor(plan, source, fields[0])
      case Fail(e) => Fail(e)
      case Ok(v) =>
        var next := if fields[0] in plan.readOnly then row else row[fields[0] := v];
        AssignFields(plan, tail, source, next)
  }

  /** The row is written exactly when every field's value can be read (and parsed). */
  lemma {:induction false} AssignFieldsOk(plan: Plan, fields: seq<string>, source: Row, row: Row)
    requires Holds(source, plan.sourceFields) && Holds(row, fields)
    ensures AssignFields(plan, fields, source, row).Ok? <==>
              forall i :: 0 <= i < |fields| ==> CellFor(plan, source, fields[i]).Ok?
    decreases |fields|
  {
    if fields != [] {
      var tail := fields[1..];
      assert forall i :: 0 <= i < |tail| ==> tail[i] == fields[i + 1];
      var cell := CellFor(plan, source, fields[0]);
      if cell.Ok? {
        var next := if fields[0] in plan.readOnly then row else row[fields[0] := cell.value];
        AssignFieldsOk(plan, tail, source, next);
      }
    }
  }

  /** A failure is the error of the first field whose value cannot be read (or parsed). */
  lemma {:induction false} AssignFieldsFirstFailure(plan: Plan, fields: seq<string>, source: Row, row: Row)
    requires Holds(source, plan.sourceFields) && Holds(row, fields)
    ensures var r := AssignFields(plan, fields, source, row);
      r.Fail? ==> exists i :: 0 <= i < |fields| && CellFor(plan, source, fields[i]) == Fail(r.stop)
                              && forall j :: 0 <= j < i ==> CellFor(plan, source, fields[j]).Ok?
    decreases |fields|
  {
    if fields != [] {
      var tail := fields[1..];
      assert forall i :: 0 <= i < |tail| ==> tail[i] == fields[i + 1];
      var cell := CellFor(plan, source, fields[0]);
      if cell.Ok? {
        var next := if fields[0] in plan.readOnly then row else row[fields[0] := cell.value];
        AssignFieldsFirstFailure(plan, tail, source, next);
        var r := AssignFields(plan, fields, source, row);
        if r.Fail? {
          var i :| 0 <= i < |tail| && CellFor(plan, source, tail[i]) == Fail(r.stop)
                   && forall j :: 0 <= j < i ==> CellFor(plan, source, tail[j]).Ok?;
          assert CellFor(plan, source, fields[i + 1]) == Fail(r.stop);
          assert forall j :: 0 <= j < i + 1 ==> CellFor(plan, source, fields[j]).Ok? by {
            forall j | 0 <= j < i + 1 ensures CellFor(plan, source, fields[j]).Ok? {
              if j > 0 {
                assert fields[j] == tail[j - 1];
              }
            }
          }
        }
      } else {
        assert CellFor(plan, source, fields[0]) == Fail(cell.stop);
      }
    }
  }

  /**
   * A written row holds, in every writable field of `fields`, the value read from the
   * UPDATE row, and its old value everywhere else.
   */
  lemma {:induction false} AssignFieldsValues(plan: Plan, fields: seq<string>, source: Row, row: Row)
    requires Holds(source, plan.sourceFields) && Holds(row, fields)
    ensures var r := AssignFields(plan, fields, source, row);
      r.Ok? ==> forall f :: f in row ==>
        if f in fields && f !in plan.readOnly then CellFor(plan, source, f) == Ok(r.value[f]) else r.value[f] == row[f]
    decreases |fields|
  {
    var r := AssignFields(plan, fields, source, row);
    if fields != [] && r.Ok? {
      var tail := fields[1..];
      assert forall i :: 0 <= i < |tail| ==> tail[i] == fields[i + 1];
      var cell := CellFor(plan, source, fields[0]);
      var next := if fields[0] in plan.readOnly then row else row[fields[0] := cell.value];
      AssignFieldsValues(plan, tail, source, next);
      AssignFieldsOk(plan, fields, source, row);
      forall f | f in row
        ensures if f in fields && f !in plan.readOnly then CellFor(plan, source, f) == Ok(r.value[f]) else r.value[f] == row[f]
      {
        if f in tail {
          var k :| 0 <= k < |tail| && tail[k] == f;
          assert CellFor(plan, source, fields[k + 1]).Ok?;
        }
      }
    }
  }

  /**
   * One target row in the update cursor (LINZ_WFS.py:971-981): its id is looked up in
   * the dictionary; a row whose id is not a key is left as it is.
   */
  function UpdateOne(plan: Plan, row: Row): (r: Result<Row>)
    requires PlanFits(plan) && Holds(row, plan.targetFields)
    ensures plan.idField !in plan.targetFields ==> r == Fail(Raised(ValueError))
    ensures plan.idField in plan.targetFields && PyKey(row[plan.idField]) !in plan.updates ==> r == Ok(row)
    ensures r.Ok? ==> r.value.Keys == row.Keys
    ensures r.Ok? && plan.idField in plan.targetFields && PyKey(row[plan.idField]) in plan.updates ==>
              forall f :: f in plan.targetFields && f !in plan.readOnly ==>
                CellFor(plan, plan.updates[PyKey(row[plan.idField])], f) == Ok(r.value[f])
    ensures r.Ok? ==> forall f :: f in row && (f !in plan.targetFields || f in plan.readOnly) ==> r.value[f] == row[f]
    ensures plan.idField in plan.targetFields && PyKey(row[plan.idField]) in plan.updates ==>
              (r.Ok? <==> forall i :: 0 <= i < |plan.targetFields| ==>
                            CellFor(plan, plan.updates[PyKey(row[plan.idField])], plan.targetFields[i]).Ok?)
  {
    if plan.idField !in plan.targetFields then Fail(Raised(ValueError))   // `target_fields.index(id_field)`
    else
      var key := PyKey(row[plan.idField]);
      if key !in plan.updates then Ok(row)
      else
        AssignFieldsOk(plan, plan.targetFields, plan.updates[key], row);
        AssignFieldsValues(plan, plan.targetFields, plan.updates[key], row);
        AssignFields(plan, plan.targetFields, plan.updates[key], row)
  }

  /** The UPDATE rows of a changeset, in cursor order. */
  function UpdateRows(rows: seq<Row>): (r: seq<Row>)
    ensures forall x :: x in r ==> x in rows && Tagged(x, "UPDATE")
    ensures |r| <= |rows|
  {
    if rows == [] then []
    else UpdateRows(rows[..|rows| - 1]) + if Tagged(rows[|rows| - 1], "UPDATE") then [rows[|rows| - 1]] else []
  }

  lemma {:induction false} UpdateRowsGrow(rows: seq<Row>, i: nat)
    requires i <= |rows|
    ensures |UpdateRows(rows[..i])| <= |UpdateRows(rows)|
    decreases |rows| - i
  {
    if i < |rows| {
      UpdateRowsGrow(rows, i + 1);
      assert rows[..i + 1][..i] == rows[..i];
    } else {
      assert rows[..i] == rows;
    }
  }

  /**
   * `updates_dict` after the search cursor (LINZ_WFS.py:961-966): every id maps to
   * the last UPDATE row carrying it.
   */
  function LastUpdates(rows: seq<Row>, idField: string): (m: map<Value, Row>)
    requires forall i :: 0 <= i < |rows| ==> idField in rows[i]
  {
    if rows == [] then map[]
    else
      var front := rows[..|rows| - 1];
      assert forall i :: 0 <= i < |front| ==> front[i] == rows[i];
      LastUpdates(front, idField)[PyKey(rows[|rows| - 1][idField]) := rows[|rows| - 1]]
  }

  /** Every id read is a key, and every key maps to a row read under that id. */
  lemma {:induction false} LastUpdatesDomain(rows: seq<Row>, idField: string)
    requires forall i :: 0 <= i < |rows| ==> idField in rows[i]
    ensures forall i :: 0 <= i < |rows| ==> PyKey(rows[i][idField]) in LastUpdates(rows, idField)
    ensures forall k :: k in LastUpdates(rows, idField) ==>
              LastUpdates(rows, idField)[k] in rows && PyKey(LastUpdates(rows, idField)[k][idField]) == k
  {
    if rows != [] {
      var front := rows[..|rows| - 1];
      assert forall i :: 0 <= i < |front| ==> front[i] == rows[i];
      LastUpdatesDomain(front, idField);
    }
  }

  /** Row `i` is the last of `rows` whose id is the key `k`. */
  predicate LastWith(rows: seq<Row>, idField: string, k: Value, i: int)
    requires forall j :: 0 <= j < |rows| ==> idField in rows[j]
  {
    0 <= i < |rows| && PyKey(rows[i][idField]) == k
    && forall j :: i < j < |rows| ==> PyKey(rows[j][idField]) != k
  }

  /** For an id that occurs more than once, the last UPDATE row read wins. */
  lemma {:induction false} LastUpdateWins(rows: seq<Row>, idField: string, i: int)
    requires forall j :: 0 <= j < |rows| ==> idField in rows[j]
    requires 0 <= i < |rows| && LastWith(rows, idField, PyKey(rows[i][idField]), i)
    ensures PyKey(rows[i][idField]) in LastUpdates(rows, idField)
            && LastUpdates(rows, idField)[PyKey(rows[i][idField])] == rows[i]
  {
    var front := rows[..|rows| - 1];
    if i < |rows| - 1 {
      assert forall j :: 0 <= j < |front| ==> front[j] == rows[j];
      assert LastWith(front, idField, PyKey(front[i][idField]), i);
      LastUpdateWins(front, idField, i);
    }
  }

  /** The dictionary, or the `ValueError` of `source_fields.index(id_field)` at the first UPDATE row. */
  function UpdatesDict(changeRows: seq<Row>, idField: string, sourceFields: seq<string>): (r: Result<map<Value, Row>>)
    requires forall i :: 0 <= i < |changeRows| ==> Holds(changeRows[i], sourceFields)
    ensures r.Fail? <==> UpdateRows(changeRows) != [] && idField !in sourceFields
    ensures r.Fail? ==> r.stop == Raised(ValueError)
  {
    var ups := UpdateRows(changeRows);
    if ups == [] then Ok(map[])
    else if idField !in sourceFields then Fail(Raised(ValueError))
    else
      assert forall x :: x in changeRows ==> Holds(x, sourceFields);
      assert forall i :: 0 <= i < |ups| ==> ups[i] in changeRows;
      Ok(LastUpdates(ups, idField))
  }

  lemma UpdateRowsStep(rows: seq<Row>, i: nat)
    requires i < |rows|
    ensures UpdateRows(rows[..i + 1]) == UpdateRows(rows[..i]) + if Tagged(rows[i], "UPDATE") then [rows[i]] else []
  {
    assert rows[..i + 1][..i] == rows[..i];
  }

  lemma LastUpdatesStep(rows: seq<Row>, row: Row, idField: string)
    requires forall j :: 0 <= j < |rows| ==> idField in rows[j]
    requires idField in row
    ensures LastUpdates(rows + [row], idField) == LastUpdates(rows, idField)[PyKey(row[idField]) := row]
  {
    assert (rows + [row])[..|rows|] == rows;
  }

  lemma KeyInEach(rows: seq<Row>, row: Row, key: string)
    requires forall j :: 0 <= j < |rows| ==> key in rows[j]
    requires key in row
    ensures forall j :: 0 <= j < |rows + [row]| ==> key in (rows + [row])[j]
  {
  }

  lemma HoldsMember(row: Row, keys: seq<string>, key: string)
    requires Holds(row, keys) && key in keys
    ensures key in row
  {
  }

  /** The search cursor loop that fills `updates_dict`. */
  method CollectUpdates(changeRows: seq<Row>, idField: string, sourceFields: seq<string>)
    returns (r: Result<map<Value, Row>>)
    requires forall i :: 0 <= i < |changeRows| ==> Holds(changeRows[i], sourceFields)
    ensures r == UpdatesDict(changeRows, idField, sourceFields)
  {
    var updates: map<Value, Row> := map[];
    ghost var seen: seq<Row> := [];
    for i := 0 to |changeRows|
      invariant seen == UpdateRows(changeRows[..i])
      invariant idField in sourceFields || seen == []
      invariant forall j :: 0 <= j < |seen| ==> idField in seen[j]
      invariant updates == LastUpdates(seen, idField)
    {
      var row := changeRows[i];
      UpdateRowsStep(changeRows, i);
      if Tagged(row, "UPDATE") {
        if idField !in sourceFields {
          UpdateRowsGrow(changeRows, i + 1);
          return Fail(Raised(ValueError));
        }
        HoldsMember(row, sourceFields, idField);
        LastUpdatesStep(seen, row, idField);
        updates := updates[PyKey(row[idField]) := row];
        KeyInEach(seen, row, idField);
        seen := seen + [row];
      }
    }
    assert changeRows[..|changeRows|] == changeRows;
    return Ok(updates);
  }

  /** The writable field loop for one matched row, as the source runs it. */
  method AssignRow(plan: Plan, source: Row, row: Row) returns (r: Result<Row>)
    requires Holds(source, plan.sourceFields) && Holds(row, plan.targetFields)
    ensures r == AssignFields(plan, plan.targetFields, source, row)
  {
    var fields := plan.targetFields;
    var current := row;
    for i := 0 to |fields|
      invariant current.Keys == row.Keys
      invariant AssignFields(plan, fields, source, row) == AssignFields(plan, fields[i..], source, current)
    {
      assert fields[i..][0] == fields[i] && fields[i..][1..] == fields[i + 1..];
      var cell := CellFor(plan, source, fields[i]);
      if cell.Fail? {
        return Fail(cell.stop);
      }
      if fields[i] !in plan.readOnly {
        current := current[fields[i] := cell.value];
      }
    }
    return Ok(current);
  }

  /** `source_fields` and `target_fields` of `processUpdates` (LINZ_WFS.py:940-954). */
  function SourceFields(source: seq<Field>, target: seq<Field>): seq<string>
  {
    CursorFields(source, ExcludeList(source, target))
  }

  function TargetFields(source: seq<Field>, target: seq<Field>): seq<string>
  {
    CursorFields(target, ExcludeList(source, target))
  }

  function MakePlan(idField: string, source: seq<Field>, target: seq<Field>, updates: map<Value, Row>): Plan
  {
    Plan(idField, SourceFields(source, target), TargetFields(source, target),
         KeysOfKind(target, {Date}), KeysOfKind(target, {OID, GlobalID}), updates)
  }

  /** The update can be applied to every row of `rows`. */
  predicate Ready(plan: Plan, rows: seq<Row>)
  {
    PlanFits(plan) && forall i :: 0 <= i < |rows| ==> Holds(rows[i], plan.targetFields)
  }

  /** The first `k` rows of `rows0` have been through the update and are now those of `rows`; the others are untouched. */
  predicate UpdatedUpTo(plan: Plan, rows0: seq<Row>, rows: seq<Row>, k: int)
  {
    && Ready(plan, rows0)
    && 0 <= k <= |rows0| && |rows| == |rows0|
    && (forall j :: 0 <= j < k ==> UpdateOne(plan, rows0[j]) == Ok(rows[j]))
    && rows[k..] == rows0[k..]
  }

  lemma CursorFieldsHeld(rows: seq<Row>, fields: seq<Field>, exclude: seq<string>)
    requires Conform(rows, fields)
    ensures forall i :: 0 <= i < |rows| ==> Holds(rows[i], CursorFields(fields, exclude))
  {
  }

  /**
   * `processUpdates(source, target, id_field)` (LINZ_WFS.py:932-984). A `ValueError`
   * while filling the dictionary leaves the target alone; otherwise the target rows
   * are updated in cursor order, and an error in one row leaves the rows before it
   * updated and that row and the rest untouched. No row is added or removed.
   */
  method ProcessUpdates(source: FeatureClass, target: FeatureClass, idField: string) returns (err: Option<Stop>)
    requires source.Valid() && target.Valid() && source != target
    modifies target
    ensures target.Valid()
    ensures target.fields == old(target.fields) && target.indexes == old(target.indexes)
    ensures |target.rows| == |old(target.rows)|
    ensures var d := UpdatesDict(source.rows, idField, SourceFields(source.fields, target.fields));
            d.Fail? ==> err == Some(d.stop) && target.rows == old(target.rows)
    ensures var d := UpdatesDict(source.rows, idField, SourceFields(source.fields, target.fields));
            d.Ok? ==> Updated(MakePlan(idField, source.fields, target.fields, d.value), old(target.rows), target.rows, err)
  {
    var sourceFields := SourceFields(source.fields, target.fields);
    CursorFieldsHeld(source.rows, source.fields, ExcludeList(source.fields, target.fields));
    var collected := CollectUpdates(source.rows, idField, sourceFields);
    if collected.Fail? {
      return Some(collected.stop);
    }
    var plan := MakePlan(idField, source.fields, target.fields, collected.value);
    assert PlanFits(plan) by {
      var ups := UpdateRows(source.rows);
      if ups != [] {
        assert forall x :: x in source.rows ==> Holds(x, sourceFields);
        assert forall i :: 0 <= i < |ups| ==> ups[i] in source.rows;
        LastUpdatesDomain(ups, idField);
      }
    }
    CursorFieldsHeld(target.rows, target.fields, ExcludeList(source.fields, target.fields));
    err := UpdatePass(plan, target);
  }

  /**
   * How an update pass from `rows0` ended: with no error every row went through the
   * update; with an error, row `k` raised it and only the rows before `k` changed.
   */
  predicate Updated(plan: Plan, rows0: seq<Row>, rows: seq<Row>, err: Option<Stop>)
  {
    && (err.None? ==> UpdatedUpTo(plan, rows0, rows, |rows0|))
    && (err.Some? ==> exists k :: 0 <= k < |rows0| && UpdatedUpTo(plan, rows0, rows, k)
                                  && UpdateOne(plan, rows0[k]) == Fail(err.value))
  }

  /** One more row through the update. */
  lemma UpdatedStep(plan: Plan, rows0: seq<Row>, rows: seq<Row>, i: nat, row: Row)
    requires UpdatedUpTo(plan, rows0, rows, i) && i < |rows0| && UpdateOne(plan, rows0[i]) == Ok(row)
    ensures UpdatedUpTo(plan, rows0, rows[i := row], i + 1)
  {
    var next := rows[i := row];
    assert next[i + 1..] == rows[i + 1..];
    assert rows[i + 1..] == rows[i..][1..];
  }

  /** A row rewritten with the same columns keeps the table conforming to its fields. */
  lemma ConformReplace(rows: seq<Row>, fields: seq<Field>, i: nat, row: Row)
    requires Conform(rows, fields) && i < |rows| && row.Keys == rows[i].Keys
    ensures Conform(rows[i := row], fields)
  {
  }

  /** The body of the update cursor loop for row `i`: look its id up and, on a match, write the row back. */
  method UpdateRowAt(plan: Plan, target: FeatureClass, i: nat, ghost rows0: seq<Row>) returns (err: Option<Stop>)
    requires target.Valid() && UpdatedUpTo(plan, rows0, target.rows, i) && i < |rows0|
    modifies target`rows
    ensures target.Valid()
    ensures err.None? ==> UpdatedUpTo(plan, rows0, target.rows, i + 1)
    ensures err.Some? ==> target.rows == old(target.rows) && UpdateOne(plan, rows0[i]) == Fail(err.value)
  {
    var row := target.rows[i];
    assert row == target.rows[i..][0] == rows0[i..][0] == rows0[i];
    if plan.idField !in plan.targetFields {
      return Some(Raised(ValueError));
    }
    var key := PyKey(row[plan.idField]);
    if key in plan.updates {
      var written := AssignRow(plan, plan.updates[key], row);
      assert UpdateOne(plan, rows0[i]) == written;
      if written.Fail? {
        return Some(written.stop);
      }
      UpdatedStep(plan, rows0, target.rows, i, written.value);
      ConformReplace(target.rows, target.fields, i, written.value);
      target.rows := target.rows[i := written.value];
    } else {
      UpdatedStep(plan, rows0, target.rows, i, row);
      assert target.rows[i := row] == target.rows;
    }
    return None;
  }

  /** The update cursor loop (LINZ_WFS.py:969-982). */
  method UpdatePass(plan: Plan, target: FeatureClass) returns (err: Option<Stop>)
    requires target.Valid() && Ready(plan, target.rows)
    modifies target
    ensures target.Valid()
    ensures target.fields == old(target.fields) && target.indexes == old(target.indexes)
    ensures |target.rows| == |old(target.rows)|
    ensures Updated(plan, old(target.rows), target.rows, err)
  {
    ghost var rows0 := target.rows;
    var i := 0;
    while i < |target.rows|
      invariant target.fields == old(target.fields) && target.indexes == old(target.indexes)
      invariant target.Valid()
      invariant UpdatedUpTo(plan, rows0, target.rows, i)
    {
      err := UpdateRowAt(plan, target, i, rows0);
      if err.Some? {
        assert UpdatedUpTo(plan, rows0, target.rows, i);
        return;
      }
      i := i + 1;
    }
    return None;
  }
}
