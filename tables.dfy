/**
 * Feature classes as the script sees them through `arcpy`: an ordered list of
 * fields, rows of values, and attribute indexes. Geodatabase field names are
 * matched without regard to case, so a row is keyed by the lower-cased name.
 */
module Tables {
  import Strings
  import Dates

  datatype FieldType =
    | Double | Float | Integer | SmallInteger | String | Date | OID | GlobalID | Geometry | Other

  datatype Field = Field(name: string, kind: FieldType)

  /** A cell: `None`, a number, text, a date, or an opaque shape. */
  datatype Value = Null | Int(i: int) | Real(x: real) | Text(s: string) | When(t: Dates.DateTime) | Shape(id: nat)

  /** An attribute index on the column with key `column`. */
  datatype Index = Index(name: string, column: string, unique: bool)

  /** The key under which a field's values are stored: its name without case. */
  function KeyOf(name: string): string
  {
    Strings.Lower(name)
  }

  function KeySet(fields: seq<Field>): set<string>
  {
    set i | 0 <= i < |fields| :: KeyOf(fields[i].name)
  }

  /** No two fields of a table share a name up to case. */
  predicate DistinctKeys(fields: seq<Field>)
  {
    forall i, j :: 0 <= i < j < |fields| ==> KeyOf(fields[i].name) != KeyOf(fields[j].name)
  }

  /** The fields left after dropping the one whose key is `key`. */
  function Without(fields: seq<Field>, key: string): (r: seq<Field>)
    ensures forall f :: f in r <==> f in fields && KeyOf(f.name) != key
  {
    if fields == [] then []
    else if KeyOf(fields[0].name) == key then Without(fields[1..], key)
    else [fields[0]] + Without(fields[1..], key)
  }

  lemma WithoutKeySet(fields: seq<Field>, key: string)
    ensures KeySet(Without(fields, key)) == KeySet(fields) - {key}
  {
    var r := Without(fields, key);
    forall k | k in KeySet(fields) - {key} ensures k in KeySet(r) {
      var i :| 0 <= i < |fields| && KeyOf(fields[i].name) == k;
      assert fields[i] in r;
    }
    forall k | k in KeySet(r) ensures k in KeySet(fields) - {key} {
      var i :| 0 <= i < |r| && KeyOf(r[i].name) == k;
      assert r[i] in fields;
    }
  }

  /** Distinct keys, read from the front: the head's key is not among the tail's. */
  lemma DistinctCons(fields: seq<Field>)
    requires fields != []
    ensures DistinctKeys(fields) <==>
              KeyOf(fields[0].name) !in KeySet(fields[1..]) && DistinctKeys(fields[1..])
  {
    var tail := fields[1..];
    assert forall i :: 0 <= i < |tail| ==> tail[i] == fields[i + 1];
  }

  lemma {:induction false} WithoutKeepsDistinct(fields: seq<Field>, key: string)
    requires DistinctKeys(fields)
    ensures DistinctKeys(Without(fields, key))
  {
    if fields != [] {
      DistinctCons(fields);
      WithoutKeepsDistinct(fields[1..], key);
      var r := Without(fields, key);
      if KeyOf(fields[0].name) != key {
        assert r[1..] == Without(fields[1..], key);
        DistinctCons(r);
      }
    }
  }

  lemma {:induction false} WithoutAppend(a: seq<Field>, b: seq<Field>, key: string)
    ensures Without(a + b, key) == Without(a, key) + Without(b, key)
  {
    if a == [] {
      assert a + b == b;
    } else {
      var ab := a + b;
      assert ab[0] == a[0] && ab[1..] == a[1..] + b;
      WithoutAppend(a[1..], b, key);
    }
  }

  lemma WithoutOne(f: Field, key: string)
    ensures Without([f], key) == if KeyOf(f.name) == key then [] else [f]
  {
    assert [f][1..] == [];
  }

  lemma {:induction false} WithoutAbsent(fields: seq<Field>, key: string)
    requires key !in KeySet(fields)
    ensures Without(fields, key) == fields
  {
    if fields != [] {
      assert KeyOf(fields[0].name) in KeySet(fields);
      assert KeySet(fields[1..]) <= KeySet(fields) by {
        forall i | 0 <= i < |fields[1..]|
          ensures KeyOf(fields[1..][i].name) in KeySet(fields)
        {
          assert fields[1..][i] == fields[i + 1];
        }
      }
      WithoutAbsent(fields[1..], key);
    }
  }

  /** The indexes left after dropping every index on the column `key`. */
  function DropIndexes(indexes: seq<Index>, key: string): (r: seq<Index>)
    ensures forall x :: x in r <==> x in indexes && x.column != key
    ensures (forall i :: 0 <= i < |indexes| ==> indexes[i].column != key) ==> r == indexes
  {
    if indexes == [] then []
    else if indexes[0].column == key then DropIndexes(indexes[1..], key)
    else [indexes[0]] + DropIndexes(indexes[1..], key)
  }

  const MinLong := -0x8000_0000
  const MaxLong := 0x7FFF_FFFF

  predicate IsLong(n: int)
  {
    MinLong <= n <= MaxLong
  }

  /**
   * A value written into a LONG column: a whole number in 32-bit range is kept,
   * as an integer; anything else is stored as null.
   */
  function ToLong(v: Value): (r: Value)
    ensures r.Null? || (r.Int? && IsLong(r.i))
    ensures v.Int? && IsLong(v.i) ==> r == v
    ensures v.Real? && v.x == v.x.Floor as real && IsLong(v.x.Floor) ==> r == Int(v.x.Floor)
    ensures r.Int? ==> (v.Int? && v.i == r.i) || (v.Real? && v.x == r.i as real)
  {
    match v
    case Int(n) => if IsLong(n) then v else Null
    case Real(x) => if x == x.Floor as real && IsLong(x.Floor) then Int(x.Floor) else Null
    case _ => Null
  }

  /** Every row of `rows` holds exactly one value per field of `fields`. */
  predicate Conform(rows: seq<map<string, Value>>, fields: seq<Field>)
  {
    forall i :: 0 <= i < |rows| ==> rows[i].Keys == KeySet(fields)
  }

  /** Every row gains the column `key`, null. */
  function AddColumn(rows: seq<map<string, Value>>, key: string): (r: seq<map<string, Value>>)
    ensures |r| == |rows|
    ensures forall i :: 0 <= i < |r| ==> r[i].Keys == rows[i].Keys + {key} && r[i][key] == Null
    ensures forall i, k :: 0 <= i < |r| && k in rows[i] && k != key ==> r[i][k] == rows[i][k]
  {
    seq(|rows|, i requires 0 <= i < |rows| => rows[i][key := Null])
  }

  /** Every row's `target` cell receives its `source` cell as stored in a LONG column. */
  function CopyColumn(rows: seq<map<string, Value>>, target: string, source: string): (r: seq<map<string, Value>>)
    requires forall i :: 0 <= i < |rows| ==> source in rows[i]
    ensures |r| == |rows|
    ensures forall i :: 0 <= i < |r| ==> r[i].Keys == rows[i].Keys + {target} && r[i][target] == ToLong(rows[i][source])
    ensures forall i, k :: 0 <= i < |r| && k in rows[i] && k != target ==> r[i][k] == rows[i][k]
  {
    seq(|rows|, i requires 0 <= i < |rows| => rows[i][target := ToLong(rows[i][source])])
  }

  /** Every row loses the column `key`. */
  function DropColumn(rows: seq<map<string, Value>>, key: string): (r: seq<map<string, Value>>)
    ensures |r| == |rows|
    ensures forall i :: 0 <= i < |r| ==> r[i].Keys == rows[i].Keys - {key}
    ensures forall i, k :: 0 <= i < |r| && k in r[i] ==> r[i][k] == rows[i][k]
  {
    seq(|rows|, i requires 0 <= i < |rows| => rows[i] - {key})
  }

  class FeatureClass {
    var fields: seq<Field>
    var rows: seq<map<string, Value>>
    var indexes: seq<Index>

    /** Field names are distinct, rows match the fields, indexes name existing columns. */
    ghost predicate Valid()
      reads this
    {
      && DistinctKeys(fields)
      && Conform(rows, fields)
      && forall i :: 0 <= i < |indexes| ==> indexes[i].column in KeySet(fields)
    }

    /** `arcpy.management.AddField`: a nullable column at the end, null in every row. */
    method AddField(name: string, kind: FieldType)
      requires Valid() && KeyOf(name) !in KeySet(fields)
      modifies this
      ensures Valid()
      ensures fields == old(fields) + [Field(name, kind)]
      ensures KeySet(fields) == KeySet(old(fields)) + {KeyOf(name)}
      ensures indexes == old(indexes)
      ensures rows == AddColumn(old(rows), KeyOf(name))
    {
      fields := fields + [Field(name, kind)];
      assert KeySet(fields) == KeySet(old(fields)) + {KeyOf(name)} by {
        assert forall i :: 0 <= i < |old(fields)| ==> fields[i] == old(fields)[i];
        assert fields[|old(fields)|].name == name;
      }
      rows := AddColumn(rows, KeyOf(name));
    }

    /**
     * `arcpy.management.CalculateField` with the expression `!source!` into the LONG
     * column `target`: each row's `source` value, as stored in a LONG column.
     */
    method CalculateField(target: string, source: string)
      requires Valid() && KeyOf(target) in KeySet(fields) && KeyOf(source) in KeySet(fields)
      modifies this
      ensures Valid()
      ensures fields == old(fields) && indexes == old(indexes)
      ensures rows == CopyColumn(old(rows), KeyOf(target), KeyOf(source))
    {
      rows := CopyColumn(rows, KeyOf(target), KeyOf(source));
    }

    /** `arcpy.management.DeleteField`: the column and the indexes on it are gone. */
    method DeleteField(name: string)
      requires Valid()
      modifies this
      ensures Valid()
      ensures fields == Without(old(fields), KeyOf(name))
      ensures KeySet(fields) == KeySet(old(fields)) - {KeyOf(name)}
      ensures indexes == DropIndexes(old(indexes), KeyOf(name))
      ensures rows == DropColumn(old(rows), KeyOf(name))
    {
      WithoutKeepsDistinct(fields, KeyOf(name));
      WithoutKeySet(fields, KeyOf(name));
      fields := Without(fields, KeyOf(name));
      indexes := DropIndexes(indexes, KeyOf(name));
      rows := DropColumn(rows, KeyOf(name));
    }

    /** `arcpy.management.AddIndex` on one column. */
    method AddIndex(name: string, column: string, unique: bool)
      requires Valid() && KeyOf(column) in KeySet(fields)
      modifies this
      ensures Valid()
      ensures fields == old(fields) && rows == old(rows)
      ensures indexes == old(indexes) + [Index(name, KeyOf(column), unique)]
    {
      indexes := indexes + [Index(name, KeyOf(column), unique)];
    }
  }
}
