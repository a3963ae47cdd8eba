/**
 * The wire format of date fields in a changeset, `%Y-%m-%dT%H:%M:%SZ`, read strictly:
 * twenty characters, every number written with its full width.
 */
module Dates {
  import opened Wrappers
  import opened Strings

  /** A naive UTC date and time, as `datetime.strptime` returns it. */
  datatype DateTime = DateTime(year: int, month: int, day: int, hour: int, minute: int, second: int)

  predicate IsLeapYear(y: int)
  {
    y % 4 == 0 && (y % 100 != 0 || y % 400 == 0)
  }

  function DaysInMonth(y: int, m: int): int
    requires 1 <= m <= 12
  {
    if m == 2 then (if IsLeapYear(y) then 29 else 28)
    else if m in {4, 6, 9, 11} then 30
    else 31
  }

  /** The dates `datetime` accepts: years 1 to 9999, real calendar days, no leap second. */
  predicate ValidDateTime(d: DateTime)
  {
    && 1 <= d.year <= 9999
    && 1 <= d.month <= 12
    && 1 <= d.day <= DaysInMonth(d.year, d.month)
    && 0 <= d.hour <= 23
    && 0 <= d.minute <= 59
    && 0 <= d.second <= 59
  }

  function DigitValue(c: char): int
    requires IsAsciiDigit(c)
  {
    c as int - '0' as int
  }

  function DigitChar(n: int): (c: char)
    requires 0 <= n <= 9
    ensures IsAsciiDigit(c) && DigitValue(c) == n
  {
    ('0' as int + n) as char
  }

  predicate AllDigits(s: string)
  {
    forall i :: 0 <= i < |s| ==> IsAsciiDigit(s[i])
  }

  /** The value of a run of decimal digits. */
  function Decimal(s: string): (n: nat)
    requires AllDigits(s)
  {
    if s == [] then 0 else Decimal(s[..|s| - 1]) * 10 + DigitValue(s[|s| - 1])
  }

  /** `n` written with exactly `width` decimal digits, zero-padded. */
  function Padded(n: nat, width: nat): (s: string)
    ensures |s| == width && AllDigits(s)
  {
    if width == 0 then [] else Padded(n / 10, width - 1) + [DigitChar(n % 10)]
  }

  function Power10(k: nat): (p: nat)
    ensures p >= 1
  {
    if k == 0 then 1 else 10 * Power10(k - 1)
  }

  lemma {:induction false} DecimalOfPadded(n: nat, width: nat)
    requires n < Power10(width)
    ensures Decimal(Padded(n, width)) == n
  {
    if width > 0 {
      var q, d := n / 10, n % 10;
      assert n == 10 * q + d && 0 <= d < 10;
      assert q < Power10(width - 1);
      DecimalOfPadded(q, width - 1);
      var s := Padded(n, width);
      assert s == Padded(q, width - 1) + [DigitChar(d)];
      assert s[..|s| - 1] == Padded(q, width - 1);
      assert Decimal(s) == Decimal(Padded(q, width - 1)) * 10 + d;
    }
  }

  lemma {:induction false} PaddedOfDecimal(s: string)
    requires AllDigits(s)
    ensures Decimal(s) < Power10(|s|)
    ensures Padded(Decimal(s), |s|) == s
  {
    if s != [] {
      var init := s[..|s| - 1];
      PaddedOfDecimal(init);
      var n := Decimal(s);
      assert n / 10 == Decimal(init) && n % 10 == DigitValue(s[|s| - 1]);
      assert s == init + [s[|s| - 1]];
    }
  }

  /** `d.strftime("%Y-%m-%dT%H:%M:%SZ")`. */
  function FormatDateTime(d: DateTime): (s: string)
    requires ValidDateTime(d)
    ensures |s| == 20
  {
    Padded(d.year, 4) + "-" + Padded(d.month, 2) + "-" + Padded(d.day, 2) + "T"
      + Padded(d.hour, 2) + ":" + Padded(d.minute, 2) + ":" + Padded(d.second, 2) + "Z"
  }

  /** The twenty-character layout: digits where numbers go, the fixed separators elsewhere. */
  predicate HasLayout(s: string)
  {
    && |s| == 20
    && AllDigits(s[0..4]) && s[4] == '-' && AllDigits(s[5..7]) && s[7] == '-'
    && AllDigits(s[8..10]) && s[10] == 'T' && AllDigits(s[11..13]) && s[13] == ':'
    && AllDigits(s[14..16]) && s[16] == ':' && AllDigits(s[17..19]) && s[19] == 'Z'
  }

  /** The six numbers of a string with the layout, read as decimals. */
  function FieldsOf(s: string): DateTime
    requires HasLayout(s)
  {
    DateTime(Decimal(s[0..4]), Decimal(s[5..7]), Decimal(s[8..10]),
             Decimal(s[11..13]), Decimal(s[14..16]), Decimal(s[17..19]))
  }

  /** A string with the layout is the formatting of its own fields. */
  lemma FormatOfFields(s: string)
    requires HasLayout(s) && ValidDateTime(FieldsOf(s))
    ensures FormatDateTime(FieldsOf(s)) == s
  {
    PaddedOfDecimal(s[0..4]);
    PaddedOfDecimal(s[5..7]);
    PaddedOfDecimal(s[8..10]);
    PaddedOfDecimal(s[11..13]);
    PaddedOfDecimal(s[14..16]);
    PaddedOfDecimal(s[17..19]);
    assert s == s[0..4] + [s[4]] + s[5..7] + [s[7]] + s[8..10] + [s[10]]
      + s[11..13] + [s[13]] + s[14..16] + [s[16]] + s[17..19] + [s[19]];
  }

  /**
   * `datetime.strptime(val, '%Y-%m-%dT%H:%M:%SZ')` (LINZ_WFS.py:977) on full-width
   * input; `None` where Python raises `ValueError`. Whatever it accepts formats back
   * to the very same text.
   */
  function ParseDateTime(s: string): (r: Option<DateTime>)
    ensures r.Some? ==> ValidDateTime(r.value) && FormatDateTime(r.value) == s
  {
    if !HasLayout(s) || !ValidDateTime(FieldsOf(s)) then None
    else
      FormatOfFields(s);
      Some(FieldsOf(s))
  }

  /** Every valid date survives formatting and parsing unchanged. */
  lemma ParseFormatRoundTrip(d: DateTime)
    requires ValidDateTime(d)
    ensures ParseDateTime(FormatDateTime(d)) == Some(d)
  {
    var s := FormatDateTime(d);
    assert s[0..4] == Padded(d.year, 4);
    assert s[5..7] == Padded(d.month, 2);
    assert s[8..10] == Padded(d.day, 2);
    assert s[11..13] == Padded(d.hour, 2);
    assert s[14..16] == Padded(d.minute, 2);
    assert s[17..19] == Padded(d.second, 2);
    assert Power10(4) == 10000 && Power10(2) == 100;
    DecimalOfPadded(d.year, 4);
    DecimalOfPadded(d.month, 2);
    DecimalOfPadded(d.day, 2);
    DecimalOfPadded(d.hour, 2);
    DecimalOfPadded(d.minute, 2);
    DecimalOfPadded(d.second, 2);
  }
}
