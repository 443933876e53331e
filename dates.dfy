/** The date check of `get_rate_plan`: `datetime.strptime(s, "%Y-%m-%d")` succeeds.
    Modelled on CPython's `_strptime` for this format: `%Y` is exactly four digits,
    `%m` is `1[0-2]|0[1-9]|[1-9]`, `%d` is `3[01]|[12]\d|0[1-9]|[1-9]| [1-9]`, the
    whole string must be consumed, and the fields must form a real calendar date
    (year at least 1, day within the month). */
module Dates {
  import opened Text

  predicate Leap(y: nat) {
    y % 4 == 0 && (y % 100 != 0 || y % 400 == 0)
  }

  function DaysInMonth(y: nat, m: nat): (d: nat)
    requires 1 <= m <= 12
    ensures 28 <= d <= 31
  {
    if m == 2 then (if Leap(y) then 29 else 28)
    else if m == 4 || m == 6 || m == 9 || m == 11 then 30
    else 31
  }

  predicate YearField(f: string) {
    |f| == 4 && IsDigitString(f)
  }

  /** `1[0-2]|0[1-9]|[1-9]` */
  predicate MonthField(f: string) {
    || (|f| == 2 && f[0] == '1' && '0' <= f[1] <= '2')
    || (|f| == 2 && f[0] == '0' && '1' <= f[1] <= '9')
    || (|f| == 1 && '1' <= f[0] <= '9')
  }

  /** `3[01]|[12]\d|0[1-9]|[1-9]| [1-9]`. The two-character forms come before `[1-9]`,
      so the first alternative that matches is also the one that consumes the field. */
  predicate DayField(f: string) {
    || (|f| == 2 && f[0] == '3' && '0' <= f[1] <= '1')
    || (|f| == 2 && '1' <= f[0] <= '2' && IsDigit(f[1]))
    || (|f| == 2 && f[0] == '0' && '1' <= f[1] <= '9')
    || (|f| == 2 && f[0] == ' ' && '1' <= f[1] <= '9')
    || (|f| == 1 && '1' <= f[0] <= '9')
  }

  /** The number a month or day field denotes (the day form " d" denotes d). */
  function FieldValue(f: string): nat
    requires MonthField(f) || DayField(f)
  {
    if f[0] == ' ' then DigitValue(f[1]) else DigitsValue(f)
  }

  lemma FieldRanges(f: string)
    ensures MonthField(f) ==> 1 <= FieldValue(f) <= 12
    ensures DayField(f) ==> 1 <= FieldValue(f) <= 31
  {
    if (MonthField(f) || DayField(f)) && f[0] != ' ' {
      assert IsDigit(f[0]);
      if |f| == 2 {
        assert f[..1] == [f[0]];
        assert DigitsValue(f[..1]) == DigitValue(f[0]);
        assert DigitsValue(f) == 10 * DigitValue(f[0]) + DigitValue(f[1]);
      } else {
        assert DigitsValue(f) == DigitValue(f[0]);
      }
    }
  }

  /** The fields after the year when the month field has k characters. */
  predicate FieldsFrom(s: string, k: nat) {
    && 6 + k <= |s| && s[5 + k] == '-'
    && MonthField(s[5..5 + k]) && DayField(s[6 + k..])
  }

  predicate ValidDate(s: string) {
    && |s| >= 8 && YearField(s[..4]) && s[4] == '-'
    && exists k :: 1 <= k <= 2 && FieldsFrom(s, k) && CalendarDate(s, k)
  }

  predicate CalendarDate(s: string, k: nat)
    requires |s| >= 8 && YearField(s[..4]) && FieldsFrom(s, k)
  {
    FieldRanges(s[5..5 + k]);
    var y := DigitsValue(s[..4]);
    var m := FieldValue(s[5..5 + k]);
    1 <= y && FieldValue(s[6 + k..]) <= DaysInMonth(y, m)
  }

  /** A valid date has the `YYYY-M-D` to `YYYY-MM-DD` shape: 8 to 10 characters,
      with the year's dash at index 4. */
  lemma ValidDateShape(s: string)
    requires ValidDate(s)
    ensures 8 <= |s| <= 10 && s[4] == '-'
    ensures forall i :: 0 <= i < 4 ==> IsDigit(s[i])
  {
    var k :| 1 <= k <= 2 && FieldsFrom(s, k) && CalendarDate(s, k);
    assert forall i :: 0 <= i < 4 ==> s[..4][i] == s[i];
  }

  /** Zero-padded decimal text of n in w digits. */
  function Pad(n: nat, w: nat): (r: string)
    ensures |r| == w
    ensures forall i :: 0 <= i < w ==> IsDigit(r[i])
    ensures n < Power10(w) ==> DigitsValue(r) == n
  {
    if w == 0 then [] else Pad(n / 10, w - 1) + [DigitChar(n % 10)]
  }

  function Power10(w: nat): nat {
    if w == 0 then 1 else 10 * Power10(w - 1)
  }

  function IsoDate(y: nat, m: nat, d: nat): string {
    Pad(y, 4) + "-" + Pad(m, 2) + "-" + Pad(d, 2)
  }

  lemma TwoDigits(n: nat)
    requires n < 100
    ensures Pad(n, 2) == [DigitChar(n / 10), DigitChar(n % 10)]
  {
  }

  /** Every real calendar date written as zero-padded `YYYY-MM-DD` passes the check. */
  lemma IsoDateValid(y: nat, m: nat, d: nat)
    requires 1 <= y <= 9999 && 1 <= m <= 12 && 1 <= d <= DaysInMonth(y, m)
    ensures ValidDate(IsoDate(y, m, d))
  {
    var s := IsoDate(y, m, d);
    var ys, ms, ds := Pad(y, 4), Pad(m, 2), Pad(d, 2);
    assert s[..4] == ys;
    assert s[4] == '-';
    assert s[5..7] == ms;
    assert s[7] == '-';
    assert s[8..] == ds;
    TwoDigits(m);
    TwoDigits(d);
    assert MonthField(ms);
    assert DayField(ds);
    assert FieldValue(ms) == m;
    assert FieldValue(ds) == d;
    assert FieldsFrom(s, 2);
    assert CalendarDate(s, 2);
  }

  /** `strptime` also accepts one-digit months and days, so the check is looser than
      the `YYYY-MM-DD` its error message names. */
  lemma UnpaddedAccepted()
    ensures ValidDate("2025-1-5")
  {
    var s := "2025-1-5";
    assert FieldsFrom(s, 1);
    assert CalendarDate(s, 1);
  }

  /** The calendar is checked: February 29 exists only in leap years. */
  lemma NonLeapDayRejected()
    ensures !ValidDate("2023-02-29")
  {
  }

  lemma LeapDayAccepted()
    ensures ValidDate("2024-02-29")
  {
    var s := "2024-02-29";
    assert s[..4] == "2024";
    assert "2024"[..3] == "202" && "202"[..2] == "20" && "20"[..1] == "2";
    assert DigitsValue("2024") == 2024;
    assert s[8..] == "29" && "29"[..1] == "2";
    assert FieldValue(s[5..7]) == 2 && FieldValue(s[8..]) == 29;
    assert FieldsFrom(s, 2);
    assert CalendarDate(s, 2);
  }
}
