/** `checkArguments`: exactly one action selector per invocation. */
module Arguments {
  import opened Wrappers

  /**
   * The six action selectors of the command line: three `store_true` flags and
   * three options holding a string (an export id or a file path) or `None`.
   */
  datatype Args = Args(
    init: bool,
    changeset: bool,
    download: bool,
    resume: Option<string>,
    json: Option<string>,
    zip: Option<string>)

  /** Python's `bool(x)` for an optional string: present and not empty. */
  predicate Truthy(o: Option<string>)
  {
    o.Some? && o.value != ""
  }

  /** `bool(var)` for each entry of `variables`, in the source's order. */
  function Selectors(a: Args): (s: seq<bool>)
    ensures |s| == 6
  {
    [a.init, a.changeset, a.download, Truthy(a.resume), Truthy(a.json), Truthy(a.zip)]
  }

  /** `sum(bool(var) for var in variables)`. */
  function CountTrue(s: seq<bool>): (n: nat)
    ensures n <= |s|
  {
    if s == [] then 0 else (if s[0] then 1 else 0) + CountTrue(s[1..])
  }

  /** Every entry is false. */
  predicate NoneSet(s: seq<bool>)
  {
    forall i :: 0 <= i < |s| ==> !s[i]
  }

  /** Some two distinct entries are true. */
  predicate TwoSet(s: seq<bool>)
  {
    exists i, j :: 0 <= i < j < |s| && s[i] && s[j]
  }

  /** Exactly one entry is true. */
  predicate ExactlyOne(s: seq<bool>)
  {
    exists i :: 0 <= i < |s| && s[i] && forall j :: 0 <= j < |s| && j != i ==> !s[j]
  }

  datatype Verdict = Proceed | Stopped(stop: Stop)

  /**
   * `checkArguments(args)` (LINZ_WFS.py:1089-1110): no selector ends with `exit()`
   * (status 0), several with `exit(1)`, exactly one returns `True`.
   */
  function CheckArguments(a: Args): (v: Verdict)
    ensures v == Proceed <==> ExactlyOne(Selectors(a))
    ensures v == Stopped(Exit(0)) <==> NoneSet(Selectors(a))
    ensures v == Stopped(Exit(1)) <==> TwoSet(Selectors(a))
  {
    var n := CountTrue(Selectors(a));
    CountTrueZero(Selectors(a));
    CountTrueOne(Selectors(a));
    CountTrueMany(Selectors(a));
    if n == 0 then Stopped(Exit(0))
    else if n > 1 then Stopped(Exit(1))
    else Proceed
  }

  lemma {:induction false} CountTrueZero(s: seq<bool>)
    ensures CountTrue(s) == 0 <==> NoneSet(s)
  {
    if s != [] {
      CountTrueZero(s[1..]);
      assert forall i :: 1 <= i < |s| ==> s[i] == s[1..][i - 1];
    }
  }

  lemma {:induction false} CountTrueMany(s: seq<bool>)
    ensures CountTrue(s) > 1 <==> TwoSet(s)
  {
    if s != [] {
      CountTrueMany(s[1..]);
      CountTrueZero(s[1..]);
      if CountTrue(s) > 1 {
        if s[0] {
          var j :| 0 <= j < |s[1..]| && s[1..][j];
          assert s[0] && s[j + 1];
        } else {
          var i, j :| 0 <= i < j < |s[1..]| && s[1..][i] && s[1..][j];
          assert s[i + 1] && s[j + 1];
        }
      } else {
        forall i, j | 0 <= i < j < |s| ensures !(s[i] && s[j]) {
          if i == 0 {
            assert s[1..][j - 1] == s[j];
          } else {
            assert s[1..][i - 1] == s[i] && s[1..][j - 1] == s[j];
          }
        }
      }
    }
  }

  lemma CountTrueOne(s: seq<bool>)
    ensures CountTrue(s) == 1 <==> ExactlyOne(s)
  {
    CountTrueZero(s);
    CountTrueMany(s);
    if CountTrue(s) == 1 {
      var i :| 0 <= i < |s| && s[i];
      forall j | 0 <= j < |s| && j != i ensures !s[j] {
        var lo, hi := if i < j then i else j, if i < j then j else i;
        assert !(s[lo] && s[hi]);
      }
    }
  }
}
