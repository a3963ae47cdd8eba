/**
 * `convertIdFieldToInteger`: the id field of a downloaded feature class is turned
 * into a LONG column with a unique index, through a temporary column, so that
 * later updates match ids exactly.
 */
module IdField {
  import opened Wrappers
  import opened Tables

  const TempField := "_uniqueIdentifier"
  const IdIndex := "id_idx2"

  /** What the function does with the table. */
  datatype Decision =
    | NotFound        // no field named `id_field`: warn and return
    | NotNumeric      // the field is not a number field: warn and return
    | AlreadyInteger  // only the unique index is added
    | Migrate         // values move through the temporary LONG column

  predicate IsNumberType(k: FieldType)
  {
    k == Double || k == Float || k == Integer || k == SmallInteger
  }

  /** `[f for f in arcpy.ListFields(fc) if f.name == id_field][0]`: an exact name match. */
  function FirstNamed(fields: seq<Field>, name: string): (r: Option<Field>)
    ensures r.None? <==> forall i :: 0 <= i < |fields| ==> fields[i].name != name
    ensures r.Some? ==> exists i :: 0 <= i < |fields| && fields[i] == r.value && r.value.name == name
                          && forall j :: 0 <= j < i ==> fields[j].name != name
  {
    if fields == [] then None
    else if fields[0].name == name then Some(fields[0])
    else
      var r := FirstNamed(fields[1..], name);
      assert forall i :: 0 <= i < |fields[1..]| ==> fields[1..][i] == fields[i + 1];
      r
  }

  /** The choice made by the branches at LINZ_WFS.py:760-781. */
  function Decide(fields: seq<Field>, idField: string): (d: Decision)
    ensures d == NotFound <==> forall i :: 0 <= i < |fields| ==> fields[i].name != idField
    ensures d == AlreadyInteger <==> FirstNamed(fields, idField) == Some(Field(idField, Integer))
    ensures d == Migrate <==> FirstNamed(fields, idField).Some?
                               && IsNumberType(FirstNamed(fields, idField).value.kind)
                               && FirstNamed(fields, idField).value.kind != Integer
  {
    match FirstNamed(fields, idField)
    case None => NotFound
    case Some(f) =>
      if !IsNumberType(f.kind) then NotNumeric
      else if f.kind == Integer then AlreadyInteger
      else Migrate
  }

  /** One row through the whole migration: only the id cell changes, to its LONG value. */
  lemma MigratedRow(row: map<string, Value>, id: string, temp: string)
    requires id in row && temp !in row && id != temp
    ensures ((row[temp := ToLong(row[id])] - {id})[id := Null][id := ToLong(ToLong(row[id]))] - {temp})
            == row[id := ToLong(row[id])]
  {
    assert ToLong(ToLong(row[id])) == ToLong(row[id]);
  }

  /**
   * The migration path of `convertIdFieldToInteger` (LINZ_WFS.py:783-827): the values
   * are copied into `_uniqueIdentifier`, the id field is dropped and added again as
   * LONG with the unique index, the values are copied back and the temporary field
   * is dropped.
   */
  method MigrateIdField(fc: FeatureClass, idField: string)
    requires fc.Valid() && KeyOf(idField) in KeySet(fc.fields) && KeyOf(TempField) !in KeySet(fc.fields)
    modifies fc
    ensures fc.Valid()
    ensures fc.fields == Without(old(fc.fields), KeyOf(idField)) + [Field(idField, Integer)]
    ensures fc.indexes == DropIndexes(old(fc.indexes), KeyOf(idField)) + [Index(IdIndex, KeyOf(idField), true)]
    ensures |fc.rows| == |old(fc.rows)|
    ensures forall i :: 0 <= i < |fc.rows| ==>
              fc.rows[i] == old(fc.rows)[i][KeyOf(idField) := ToLong(old(fc.rows)[i][KeyOf(idField)])]
  {
    ghost var rows0, fields0 := fc.rows, fc.fields;
    MoveIdToTemp(fc, idField);
    assert fc.fields[..|fc.fields| - 1] == Without(fields0, KeyOf(idField));
    MoveTempToId(fc, idField);
    MigratedRows(rows0, KeyOf(idField), KeyOf(TempField));
  }

  /** Every row through the whole migration: only its id cell changes, to its LONG value. */
  lemma MigratedRows(rows: seq<map<string, Value>>, id: string, temp: string)
    requires id != temp
    requires forall i :: 0 <= i < |rows| ==> id in rows[i] && temp !in rows[i]
    ensures var r := DropColumn(CopyColumn(AddColumn(DropColumn(CopyColumn(AddColumn(rows, temp), temp, id), id), id), id, temp), temp);
            |r| == |rows| && forall i :: 0 <= i < |r| ==> r[i] == rows[i][id := ToLong(rows[i][id])]
  {
    var r := DropColumn(CopyColumn(AddColumn(DropColumn(CopyColumn(AddColumn(rows, temp), temp, id), id), id), id, temp), temp);
    forall i | 0 <= i < |r|
      ensures r[i] == rows[i][id := ToLong(rows[i][id])]
    {
      MigratedRow(rows[i], id, temp);
    }
  }

  /** The first half: the values go into `_uniqueIdentifier` and the id field is dropped. */
  method MoveIdToTemp(fc: FeatureClass, idField: string)
    requires fc.Valid() && KeyOf(idField) in KeySet(fc.fields) && KeyOf(TempField) !in KeySet(fc.fields)
    modifies fc
    ensures fc.Valid()
    ensures fc.fields == Without(old(fc.fields), KeyOf(idField)) + [Field(TempField, Integer)]
    ensures KeyOf(idField) !in KeySet(fc.fields)
    ensures fc.indexes == DropIndexes(old(fc.indexes), KeyOf(idField))
    ensures forall i :: 0 <= i < |fc.indexes| ==> fc.indexes[i].column != KeyOf(TempField)
    ensures fc.rows == DropColumn(CopyColumn(AddColumn(old(fc.rows), KeyOf(TempField)), KeyOf(TempField), KeyOf(idField)), KeyOf(idField))
  {
    var idKey, tempKey := KeyOf(idField), KeyOf(TempField);
    ghost var fields0, rows0 := fc.fields, fc.rows;
    fc.AddField(TempField, Integer);
    fc.CalculateField(TempField, idField);
    fc.DeleteField(idField);
    WithoutAppend(fields0, [Field(TempField, Integer)], idKey);
    assert Without([Field(TempField, Integer)], idKey) == [Field(TempField, Integer)];
  }

  /** The second half: the id field comes back as LONG with its index, filled from the temporary field. */
  method MoveTempToId(fc: FeatureClass, idField: string)
    requires fc.Valid() && KeyOf(idField) !in KeySet(fc.fields)
    requires forall i :: 0 <= i < |fc.indexes| ==> fc.indexes[i].column != KeyOf(TempField)
    requires |fc.fields| > 0 && fc.fields[|fc.fields| - 1] == Field(TempField, Integer)
    requires KeyOf(TempField) !in KeySet(fc.fields[..|fc.fields| - 1])
    modifies fc
    ensures fc.Valid()
    ensures fc.fields == old(fc.fields)[..|old(fc.fields)| - 1] + [Field(idField, Integer)]
    ensures fc.indexes == old(fc.indexes) + [Index(IdIndex, KeyOf(idField), true)]
    ensures fc.rows == DropColumn(CopyColumn(AddColumn(old(fc.rows), KeyOf(idField)), KeyOf(idField), KeyOf(TempField)), KeyOf(TempField))
  {
    ghost var fields0 := fc.fields;
    assert KeyOf(TempField) in KeySet(fields0) by {
      assert KeyOf(fields0[|fields0| - 1].name) == KeyOf(TempField);
    }
    fc.AddField(idField, Integer);
    fc.AddIndex(IdIndex, idField, true);
    RestoreIdValues(fc, idField);
    MigratedFields(fields0[..|fields0| - 1], idField);
    assert fields0 == fields0[..|fields0| - 1] + [Field(TempField, Integer)];
  }

  /** The last two steps: the values are copied back and the temporary field is dropped. */
  method RestoreIdValues(fc: FeatureClass, idField: string)
    requires fc.Valid() && KeyOf(idField) in KeySet(fc.fields) && KeyOf(TempField) in KeySet(fc.fields)
    requires forall i :: 0 <= i < |fc.indexes| ==> fc.indexes[i].column != KeyOf(TempField)
    modifies fc
    ensures fc.Valid()
    ensures fc.fields == Without(old(fc.fields), KeyOf(TempField))
    ensures fc.indexes == old(fc.indexes)
    ensures fc.rows == DropColumn(CopyColumn(old(fc.rows), KeyOf(idField), KeyOf(TempField)), KeyOf(TempField))
  {
    fc.CalculateField(idField, TempField);
    fc.DeleteField(TempField);
  }

  lemma MigratedFields(front: seq<Field>, idField: string)
    requires KeyOf(TempField) !in KeySet(front) && KeyOf(idField) != KeyOf(TempField)
    ensures Without(front + [Field(TempField, Integer)] + [Field(idField, Integer)], KeyOf(TempField))
            == front + [Field(idField, Integer)]
  {
    var tempKey := KeyOf(TempField);
    WithoutAppend(front + [Field(TempField, Integer)], [Field(idField, Integer)], tempKey);
    WithoutAppend(front, [Field(TempField, Integer)], tempKey);
    WithoutAbsent(front, tempKey);
    WithoutOne(Field(TempField, Integer), tempKey);
    WithoutOne(Field(idField, Integer), tempKey);
  }

  /**
   * `convertIdFieldToInteger(fc)` (LINZ_WFS.py:748-831). A missing or non-numeric
   * field leaves the table alone; an `Integer` field only gets the unique index;
   * any other number field is replaced by a LONG field of the same name, at the end
   * of the field list, holding each row's value as a LONG, with the unique index.
   */
  method ConvertIdFieldToInteger(fc: FeatureClass, idField: string) returns (d: Decision)
    requires fc.Valid()
    requires Decide(fc.fields, idField) == Migrate ==> KeyOf(TempField) !in KeySet(fc.fields)
    modifies fc
    ensures fc.Valid()
    ensures d == Decide(old(fc.fields), idField)
    ensures d == NotFound || d == NotNumeric ==>
              fc.fields == old(fc.fields) && fc.rows == old(fc.rows) && fc.indexes == old(fc.indexes)
    ensures d == AlreadyInteger ==>
              && fc.fields == old(fc.fields) && fc.rows == old(fc.rows)
              && fc.indexes == old(fc.indexes) + [Index(IdIndex, KeyOf(idField), true)]
    ensures d == Migrate ==>
              && fc.fields == Without(old(fc.fields), KeyOf(idField)) + [Field(idField, Integer)]
              && fc.indexes == DropIndexes(old(fc.indexes), KeyOf(idField)) + [Index(IdIndex, KeyOf(idField), true)]
              && |fc.rows| == |old(fc.rows)|
              && forall i :: 0 <= i < |fc.rows| ==>
                   fc.rows[i] == old(fc.rows)[i][KeyOf(idField) := ToLong(old(fc.rows)[i][KeyOf(idField)])]
  {
    d := Decide(fc.fields, idField);
    if d == NotFound || d == NotNumeric {
      return;
    }
    assert KeyOf(idField) in KeySet(fc.fields) by {
      var f := FirstNamed(fc.fields, idField).value;
      var i :| 0 <= i < |fc.fields| && fc.fields[i] == f && f.name == idField;
      assert KeyOf(fc.fields[i].name) == KeyOf(idField);
    }
    if d == AlreadyInteger {
      fc.AddIndex(IdIndex, idField, true);
    } else {
      MigrateIdField(fc, idField);
    }
  }

  /**
   * After a migration the id field is an `Integer` field, so running the function
   * again only adds the index.
   */
  lemma {:induction false} MigrationSettles(fields: seq<Field>, idField: string)
    ensures Decide(Without(fields, KeyOf(idField)) + [Field(idField, Integer)], idField) == AlreadyInteger
  {
    var rest := Without(fields, KeyOf(idField));
    forall i | 0 <= i < |rest|
      ensures rest[i].name != idField
    {
      assert rest[i] in rest;
    }
    FirstNamedAfter(rest, Field(idField, Integer));
  }

  lemma {:induction false} FirstNamedAfter(fields: seq<Field>, f: Field)
    requires forall i :: 0 <= i < |fields| ==> fields[i].name != f.name
    ensures FirstNamed(fields + [f], f.name) == Some(f)
  {
    if fields != [] {
      assert (fields + [f])[1..] == fields[1..] + [f];
      assert forall i :: 0 <= i < |fields[1..]| ==> fields[1..][i] == fields[i + 1];
      FirstNamedAfter(fields[1..], f);
    }
  }

  /**
   * The migration keeps each id: a whole-number id in LONG range reads the same
   * afterwards, and one that was a whole `Double` becomes the same integer.
   */
  lemma MigrationKeepsWholeIds(before: map<string, Value>, after: map<string, Value>, idKey: string)
    requires idKey in before
    requires after == before[idKey := ToLong(before[idKey])]
    ensures before[idKey].Int? && IsLong(before[idKey].i) ==> after == before
    ensures before[idKey].Real? && before[idKey].x == before[idKey].x.Floor as real && IsLong(before[idKey].x.Floor)
            ==> after[idKey] == Int(before[idKey].x.Floor)
    ensures after.Keys == before.Keys
  {
  }
}
