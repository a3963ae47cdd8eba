/** `slugify`: turn free text into a name usable for a folder, a file or a feature class. */
module Slug {
  import opened Strings

  /** Python's `str.isspace()` for one character (the characters `str.strip()` removes). */
  predicate IsPySpace(c: char)
  {
    || '\t' <= c <= '\r'                 // tab, line feed, vertical tab, form feed, carriage return
    || '\U{001C}' <= c <= ' '            // the four separators and the space
    || c == '\U{0085}' || c == '\U{00A0}' || c == '\U{1680}'
    || '\U{2000}' <= c <= '\U{200A}'
    || c == '\U{2028}' || c == '\U{2029}' || c == '\U{202F}' || c == '\U{205F}' || c == '\U{3000}'
  }

  /** Leading whitespace removed. */
  function StripLeft(s: string): (r: string)
    ensures |r| <= |s| && r == s[|s| - |r|..]
    ensures r == [] || !IsPySpace(r[0])
    ensures forall i :: 0 <= i < |s| - |r| ==> IsPySpace(s[i])
  {
    if s != [] && IsPySpace(s[0]) then StripLeft(s[1..]) else s
  }

  /** Trailing whitespace removed. */
  function StripRight(s: string): (r: string)
    ensures |r| <= |s| && r == s[..|r|]
    ensures r == [] || !IsPySpace(r[|r| - 1])
    ensures forall i :: |r| <= i < |s| ==> IsPySpace(s[i])
  {
    if s != [] && IsPySpace(s[|s| - 1]) then StripRight(s[..|s| - 1]) else s
  }

  /** Python's `text.strip()`. */
  function Strip(s: string): string
  {
    StripRight(StripLeft(s))
  }

  /** The characters of `invalid_chars`, each translated to an underscore. */
  const InvalidChars: set<char> := {'-', '<', '>', ':', '"', '/', '\\', '|', '?', '*'}

  /** `text.translate(...)` followed by `text.replace(" ", "_")`, one character at a time. */
  function Underscore(c: char): char
  {
    if c in InvalidChars || c == ' ' then '_' else c
  }

  function UnderscoreAll(s: string): (r: string)
    ensures |r| == |s|
    ensures forall i :: 0 <= i < |s| ==> r[i] == Underscore(s[i])
  {
    seq(|s|, i requires 0 <= i < |s| => Underscore(s[i]))
  }

  /** Characters the pattern `[^a-zA-Z0-9_-]` does not remove. */
  predicate IsKept(c: char) { IsAsciiAlnum(c) || c == '_' || c == '-' }

  /** `re.sub(r"[^a-zA-Z0-9_-]", "", text)`. */
  function KeepOnly(s: string): (r: string)
    ensures forall i :: 0 <= i < |r| ==> IsKept(r[i])
    ensures |r| <= |s|
  {
    if s == [] then [] else (if IsKept(s[0]) then [s[0]] else []) + KeepOnly(s[1..])
  }

  /** Characters a slug may hold. */
  predicate IsSlugChar(c: char) { IsAsciiAlnum(c) || c == '_' }

  /** The ASCII letters and digits of `s`, in order. */
  function Alnums(s: string): string
  {
    if s == [] then [] else (if IsAsciiAlnum(s[0]) then [s[0]] else []) + Alnums(s[1..])
  }

  /** Underscoring followed by the pattern: only slug characters are left. */
  function Cleaned(s: string): (r: string)
    ensures forall i :: 0 <= i < |r| ==> IsSlugChar(r[i])
  {
    NoHyphenSurvives(s);
    KeepOnly(UnderscoreAll(s))
  }

  /** `"_" + text` when `text` starts with a digit. */
  function GuardDigit(s: string): (r: string)
    requires forall i :: 0 <= i < |s| ==> IsSlugChar(s[i])
    ensures forall i :: 0 <= i < |r| ==> IsSlugChar(r[i])
    ensures r == [] || !IsAsciiDigit(r[0])
  {
    if |s| > 0 && IsAsciiDigit(s[0]) then "_" + s else s
  }

  /**
   * `slugify(text, to_lower)` (LINZ_WFS.py:246-268): strip, translate the invalid
   * characters and spaces to `_`, drop everything outside `[a-zA-Z0-9_-]`, put `_`
   * in front of a leading digit, and optionally lower-case.
   */
  function Slugify(text: string, toLower: bool): (r: string)
    ensures forall i :: 0 <= i < |r| ==> IsSlugChar(r[i])
    ensures r == [] || !IsAsciiDigit(r[0])
    ensures toLower ==> forall i :: 0 <= i < |r| ==> !IsAsciiUpper(r[i])
  {
    var prefixed := GuardDigit(Cleaned(Strip(text)));
    if toLower then
      LowerKeepsSlugChars(prefixed);
      Lower(prefixed)
    else prefixed
  }

  /** `-` is translated before the pattern runs, so no hyphen reaches the result. */
  lemma {:induction false} NoHyphenSurvives(s: string)
    ensures forall i :: 0 <= i < |KeepOnly(UnderscoreAll(s))| ==> KeepOnly(UnderscoreAll(s))[i] != '-'
  {
    if s != [] {
      NoHyphenSurvives(s[1..]);
      assert UnderscoreAll(s) == [Underscore(s[0])] + UnderscoreAll(s[1..]);
    }
  }

  /** A string made only of slug characters is its own slug. */
  lemma SlugCharsFixed(s: string)
    requires forall i :: 0 <= i < |s| ==> IsSlugChar(s[i])
    ensures Strip(s) == s
    ensures Cleaned(s) == s
  {
    StripFixed(s);
    UnderscoreFixed(s);
    KeepOnlyFixed(s);
  }

  lemma StripFixed(s: string)
    requires forall i :: 0 <= i < |s| ==> IsSlugChar(s[i])
    ensures Strip(s) == s
  {
    if s != [] {
      SlugCharFixed(s[0]);
      SlugCharFixed(s[|s| - 1]);
    }
    assert StripLeft(s) == s;
  }

  lemma UnderscoreFixed(s: string)
    requires forall i :: 0 <= i < |s| ==> IsSlugChar(s[i])
    ensures UnderscoreAll(s) == s
  {
    forall i | 0 <= i < |s| ensures UnderscoreAll(s)[i] == s[i] {
      SlugCharFixed(s[i]);
    }
  }

  lemma SlugCharFixed(c: char)
    requires IsSlugChar(c)
    ensures !IsPySpace(c) && Underscore(c) == c && IsKept(c)
  {
  }

  lemma {:induction false} KeepOnlyFixed(s: string)
    requires forall i :: 0 <= i < |s| ==> IsKept(s[i])
    ensures KeepOnly(s) == s
  {
    if s != [] {
      KeepOnlyFixed(s[1..]);
    }
  }

  /** Lower-casing keeps slug characters slug characters, and a first character that is not a digit. */
  lemma LowerKeepsSlugChars(s: string)
    requires forall i :: 0 <= i < |s| ==> IsSlugChar(s[i])
    requires s == [] || !IsAsciiDigit(s[0])
    ensures forall i :: 0 <= i < |Lower(s)| ==> IsSlugChar(Lower(s)[i])
    ensures Lower(s) == [] || !IsAsciiDigit(Lower(s)[0])
  {
  }

  /** Slugifying a slug again (with the same `to_lower`) changes nothing. */
  lemma SlugifyIdempotent(text: string, toLower: bool)
    ensures Slugify(Slugify(text, toLower), toLower) == Slugify(text, toLower)
  {
    var s := Slugify(text, toLower);
    SlugCharsFixed(s);
    assert GuardDigit(Cleaned(Strip(s))) == s;
    if toLower {
      LowerFixed(s);
    }
  }

  lemma LowerFixed(s: string)
    requires forall i :: 0 <= i < |s| ==> !IsAsciiUpper(s[i])
    ensures Lower(s) == s
  {
    assert forall i :: 0 <= i < |s| ==> Lower(s)[i] == s[i];
  }

  /** Underscoring and the pattern never remove or reorder a letter or a digit. */
  lemma {:induction false} AlnumsSurvive(s: string)
    ensures Alnums(Cleaned(s)) == Alnums(s)
  {
    if s != [] {
      AlnumsSurvive(s[1..]);
      assert UnderscoreAll(s) == [Underscore(s[0])] + UnderscoreAll(s[1..]);
      var head := if IsKept(Underscore(s[0])) then [Underscore(s[0])] else [];
      AlnumsAppend(head, KeepOnly(UnderscoreAll(s[1..])));
    }
  }

  lemma {:induction false} AlnumsAppend(a: string, b: string)
    ensures Alnums(a + b) == Alnums(a) + Alnums(b)
  {
    if a != [] {
      assert (a + b)[1..] == a[1..] + b;
      AlnumsAppend(a[1..], b);
    } else {
      assert a + b == b;
    }
  }

  /**
   * Without `to_lower`, the letters and digits of the slug are exactly those of the
   * stripped text, in the same order: nothing else is lost.
   */
  lemma SlugifyKeepsAlphanumerics(text: string)
    ensures Alnums(Slugify(text, false)) == Alnums(Strip(text))
  {
    var kept := Cleaned(Strip(text));
    AlnumsSurvive(Strip(text));
    if |kept| > 0 && IsAsciiDigit(kept[0]) {
      assert ("_" + kept)[1..] == kept;
    }
  }
}
