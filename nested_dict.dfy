/**
 * `update_nested_dict(d, u)`: merge `u` into `d`, descending into values that are
 * dictionaries on both sides.
 */
module NestedDict {
  import opened Wrappers

  /** A JSON-like value: a dictionary with string keys, or any other value. */
  datatype Json = Leaf(text: string) | Dict(entries: map<string, Json>)

  /**
   * Merging `u[k]` into `d` raises: `u[k]` is a dictionary and `d[k]` exists but is not
   * one, and `u[k]` is not empty (its first entry makes Python test membership in, or
   * assign into, a value that is not a dictionary); or the merge one level down raises.
   * The error is taken to be `TypeError`; when `d[k]` is a string that contains the
   * first key of `u[k]` and that key's value is a dictionary, Python raises
   * `AttributeError` from `str.get` instead.
   */
  predicate FailsAt(d: map<string, Json>, u: map<string, Json>, k: string)
    requires k in u
    decreases Dict(u), 0
  {
    && u[k].Dict?
    && k in d
    && if d[k].Dict? then MergeFails(d[k].entries, u[k].entries) else u[k].entries != map[]
  }

  predicate MergeFails(d: map<string, Json>, u: map<string, Json>)
    decreases Dict(u), 1
  {
    exists k | k in u :: FailsAt(d, u, k)
  }

  /** The value `d[k]` holds after the merge, for a key of `u`. */
  function MergedAt(d: map<string, Json>, u: map<string, Json>, k: string): Json
    requires k in u && !FailsAt(d, u, k)
    decreases Dict(u), 0
  {
    if u[k].Dict? && k in d then
      if d[k].Dict? then Dict(Merged(d[k].entries, u[k].entries))
      else d[k]  // `update_nested_dict(x, {})` returns `x` untouched
    else u[k]
  }

  /** The dictionary `update_nested_dict(d, u)` returns when it does not raise. */
  function Merged(d: map<string, Json>, u: map<string, Json>): (r: map<string, Json>)
    requires !MergeFails(d, u)
    ensures r.Keys == d.Keys + u.Keys
    ensures forall k :: k in d && k !in u ==> r[k] == d[k]
    ensures forall k :: k in u && (u[k].Leaf? || k !in d) ==> r[k] == u[k]
    decreases Dict(u), 1
  {
    map k | k in d.Keys + u.Keys :: if k in u then MergedAt(d, u, k) else d[k]
  }

  /**
   * `update_nested_dict(d, u)` (LINZ_WFS.py:271-282): the loop over `u.items()`
   * assigns each key of `u` in turn, recursing where both sides hold a dictionary.
   * The source updates `d` in place; the model returns the updated dictionary.
   */
  method UpdateNestedDict(d: map<string, Json>, u: map<string, Json>) returns (r: Result<map<string, Json>>)
    ensures r.Ok? <==> !MergeFails(d, u)
    ensures r.Ok? ==> r.value == Merged(d, u)
    ensures r.Fail? ==> r.stop == Raised(TypeError)
    decreases Dict(u)
  {
    var acc := d;
    var todo := u.Keys;
    while todo != {}
      invariant todo <= u.Keys
      invariant acc.Keys == d.Keys + (u.Keys - todo)
      invariant forall k :: k in acc && k !in u.Keys - todo ==> acc[k] == d[k]
      invariant forall k :: k in u.Keys - todo ==> !FailsAt(d, u, k) && acc[k] == MergedAt(d, u, k)
      decreases todo
    {
      var k :| k in todo;
      var v := u[k];
      if v.Dict? && k in acc {
        if acc[k].Dict? {
          var sub := UpdateNestedDict(acc[k].entries, v.entries);
          if sub.Fail? {
            return sub;
          }
          acc := acc[k := Dict(sub.value)];
        } else if v.entries != map[] {
          return Fail(Raised(TypeError));
        }
      } else {
        acc := acc[k := v];
      }
      todo := todo - {k};
    }
    return Ok(acc);
  }

  /** Merging a dictionary into itself never raises and changes nothing. */
  lemma {:induction false} SelfMerge(x: map<string, Json>)
    ensures !MergeFails(x, x)
    ensures Merged(x, x) == x
    decreases Dict(x)
  {
    forall k | k in x ensures !FailsAt(x, x, k) && MergedAt(x, x, k) == x[k] {
      if x[k].Dict? {
        SelfMerge(x[k].entries);
      }
    }
  }

  /** Applying the same update twice gives what applying it once gives. */
  lemma {:induction false} MergeIdempotent(d: map<string, Json>, u: map<string, Json>)
    requires !MergeFails(d, u)
    ensures !MergeFails(Merged(d, u), u)
    ensures Merged(Merged(d, u), u) == Merged(d, u)
    decreases Dict(u), 1
  {
    var m := Merged(d, u);
    forall k | k in u ensures !FailsAt(m, u, k) && MergedAt(m, u, k) == m[k] {
      MergeIdempotentAt(d, u, k);
    }
    assert forall k :: k in m ==> Merged(m, u)[k] == m[k];
  }

  lemma {:induction false} MergeIdempotentAt(d: map<string, Json>, u: map<string, Json>, k: string)
    requires !MergeFails(d, u) && k in u
    ensures !FailsAt(Merged(d, u), u, k) && MergedAt(Merged(d, u), u, k) == Merged(d, u)[k]
    decreases Dict(u), 0
  {
    var m := Merged(d, u);
    assert !FailsAt(d, u, k);
    assert m[k] == MergedAt(d, u, k);
    if u[k].Dict? {
      if k in d && d[k].Dict? {
        MergeIdempotent(d[k].entries, u[k].entries);
      } else if k in d {
        assert u[k].entries == map[];
      } else {
        SelfMerge(u[k].entries);
        assert m[k] == u[k];
      }
    } else {
      assert m[k] == u[k];
    }
  }
}
