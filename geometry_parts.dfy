/**
 * `part_split_at_nones`: split the vertex list of one polygon part into rings at the
 * `None` separators that arcpy places between an outer ring and its holes.
 */
module GeometryParts {
  import opened Wrappers

  /** A vertex as arcpy's `Point`: only `X` and `Y` are read. */
  datatype Vertex = Vertex(x: real, y: real)

  /** `(item.X, item.Y)`: the coordinate pair that goes into the GeoJSON ring. */
  function Coordinates(v: Vertex): (real, real)
  {
    (v.x, v.y)
  }

  /** The coordinates of the present items, in order: the rings laid end to end. */
  function PresentCoordinates(items: seq<Option<Vertex>>): seq<(real, real)>
  {
    if items == [] then []
    else (if items[0].Some? then [Coordinates(items[0].value)] else []) + PresentCoordinates(items[1..])
  }

  function Concat(parts: seq<seq<(real, real)>>): seq<(real, real)>
  {
    if parts == [] then [] else parts[0] + Concat(parts[1..])
  }

  /** Number of `None` separators. */
  function NoneCount(items: seq<Option<Vertex>>): nat
  {
    if items == [] then 0 else (if items[0].None? then 1 else 0) + NoneCount(items[1..])
  }

  lemma {:induction false} ConcatAppend(a: seq<seq<(real, real)>>, b: seq<seq<(real, real)>>)
    ensures Concat(a + b) == Concat(a) + Concat(b)
  {
    if a != [] {
      assert (a + b)[1..] == a[1..] + b;
      ConcatAppend(a[1..], b);
    } else {
      assert a + b == b;
    }
  }

  /**
   * The generator's remaining output once `current` has been accumulated and `items`
   * are still to come. Every yielded ring is non-empty, the rings laid end to end are
   * `current` followed by the present items, and there is at most one ring more than
   * there are separators.
   */
  function SplitFrom(items: seq<Option<Vertex>>, current: seq<(real, real)>): (parts: seq<seq<(real, real)>>)
    ensures forall i :: 0 <= i < |parts| ==> parts[i] != []
    ensures Concat(parts) == current + PresentCoordinates(items)
    ensures |parts| <= NoneCount(items) + 1
    ensures current == [] && NoneCount(items) == 0 ==> |parts| <= 1
  {
    if items == [] then
      (if current != [] then [current] else [])
    else if items[0].None? then
      var flushed := if current != [] then [current] else [];
      var rest := SplitFrom(items[1..], []);
      ConcatAppend(flushed, rest);
      flushed + rest
    else
      var rest := SplitFrom(items[1..], current + [Coordinates(items[0].value)]);
      assert current + PresentCoordinates(items) == (current + [Coordinates(items[0].value)]) + PresentCoordinates(items[1..]);
      rest
  }

  /** `list(part_split_at_nones(part_items))` (LINZ_WFS.py:378-388). */
  function PartSplitAtNones(items: seq<Option<Vertex>>): seq<seq<(real, real)>>
  {
    SplitFrom(items, [])
  }

  /** A part without separators is one ring holding every vertex, or nothing at all. */
  lemma NoSeparatorOneRing(items: seq<Option<Vertex>>)
    requires NoneCount(items) == 0
    ensures PartSplitAtNones(items) == if PresentCoordinates(items) == [] then [] else [PresentCoordinates(items)]
  {
    var parts := PartSplitAtNones(items);
    assert Concat(parts) == PresentCoordinates(items);
    if |parts| == 1 {
      assert parts[1..] == [];
      assert Concat(parts) == parts[0];
      assert parts == [parts[0]];
    }
  }

  /** A separator ends one run of vertices: the parts on either side of it never merge. */
  lemma {:induction false} SplitAtNone(x: seq<Option<Vertex>>, y: seq<Option<Vertex>>, current: seq<(real, real)>)
    ensures SplitFrom(x + [None] + y, current) == SplitFrom(x, current) + SplitFrom(y, [])
    decreases |x|
  {
    if x == [] {
      assert x + [None] + y == [None] + y;
      assert ([None] + y)[1..] == y;
    } else {
      assert (x + [None] + y)[0] == x[0];
      assert (x + [None] + y)[1..] == x[1..] + [None] + y;
      if x[0].None? {
        SplitAtNone(x[1..], y, []);
      } else {
        SplitAtNone(x[1..], y, current + [Coordinates(x[0].value)]);
      }
    }
  }

  /**
   * The generator splits exactly at each `None`: the parts of `x`, then those of `y`.
   * With `NoSeparatorOneRing` this makes the parts the maximal runs without a `None`.
   */
  lemma PartsSplitAtEachNone(x: seq<Option<Vertex>>, y: seq<Option<Vertex>>)
    ensures PartSplitAtNones(x + [None] + y) == PartSplitAtNones(x) + PartSplitAtNones(y)
  {
    SplitAtNone(x, y, []);
  }
}
