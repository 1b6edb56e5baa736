/** Calendar dates and their `%Y%m%d` text form, as written by `date.strftime`
    and read back by `datetime.strptime(..., "%Y%m%d").date()`; and the decimal
    text `str(n)` of an integer. */
module Dates {
  import opened Results

  predicate IsLeap(y: int) {
    y % 4 == 0 && (y % 100 != 0 || y % 400 == 0)
  }

  function DaysInMonth(y: int, m: int): int
    requires 1 <= m <= 12
  {
    if m == 2 then (if IsLeap(y) then 29 else 28)
    else if m == 4 || m == 6 || m == 9 || m == 11 then 30
    else 31
  }

  /** The dates Python's `date` type can hold (years 1 to 9999). */
  predicate ValidDate(y: int, m: int, d: int) {
    1 <= y <= 9999 && 1 <= m <= 12 && 1 <= d <= DaysInMonth(y, m)
  }

  predicate IsDigit(c: char) { '0' <= c <= '9' }

  predicate AllDigits(s: string) { forall i :: 0 <= i < |s| ==> IsDigit(s[i]) }

  function Pow10(w: nat): nat {
    if w == 0 then 1 else 10 * Pow10(w - 1)
  }

  /** The decimal digit of `n`. */
  function DigitChar(n: nat): (c: char)
    requires n < 10
    ensures IsDigit(c) && c as int - '0' as int == n
  {
    ('0' as int + n) as char
  }

  /** The `width` low-order decimal digits of `n`, zero-padded on the left. */
  function Pad(n: nat, width: nat): (s: string)
    ensures |s| == width && AllDigits(s)
  {
    if width == 0 then "" else Pad(n / 10, width - 1) + [DigitChar(n % 10)]
  }

  /** The number a string of decimal digits denotes. */
  function DigitsValue(s: string): nat
    requires AllDigits(s)
  {
    if |s| == 0 then 0 else DigitsValue(s[..|s| - 1]) * 10 + (s[|s| - 1] as int - '0' as int)
  }

  lemma {:induction false} PadValue(n: nat, width: nat)
    requires n < Pow10(width)
    ensures DigitsValue(Pad(n, width)) == n
  {
    if width > 0 {
      var s := Pad(n, width);
      assert s[..|s| - 1] == Pad(n / 10, width - 1);
      PadValue(n / 10, width - 1);
    }
  }

  lemma {:induction false} PadDigitsValue(s: string)
    requires AllDigits(s)
    ensures Pad(DigitsValue(s), |s|) == s
  {
    if |s| > 0 {
      var init := s[..|s| - 1];
      PadDigitsValue(init);
      assert s == init + [s[|s| - 1]];
    }
  }

  /** `str(n)` for a natural number: its decimal digits, without leading zeros. */
  function NatText(n: nat): (s: string)
    ensures |s| >= 1 && AllDigits(s)
    ensures |s| > 1 ==> s[0] != '0'
  {
    if n < 10 then [DigitChar(n)] else NatText(n / 10) + [DigitChar(n % 10)]
  }

  /** The digits `str(n)` writes denote `n`. */
  lemma {:induction false} NatTextValue(n: nat)
    ensures DigitsValue(NatText(n)) == n
  {
    if n >= 10 {
      var s := NatText(n);
      assert s[..|s| - 1] == NatText(n / 10);
      NatTextValue(n / 10);
    }
  }

  /** `str(n)` for an integer: a minus sign before the digits of a negative one. */
  function IntText(n: int): (s: string)
    ensures |s| >= 1
    ensures n >= 0 ==> s == NatText(n)
    ensures n < 0 ==> s == "-" + NatText(-n)
  {
    if n < 0 then "-" + NatText(-n) else NatText(n)
  }

  /** `date(y, m, d).strftime("%Y%m%d")`. */
  function FormatDate(y: nat, m: nat, d: nat): string {
    Pad(y, 4) + Pad(m, 2) + Pad(d, 2)
  }

  /** `datetime.strptime(s, "%Y%m%d").date()`: the date an eight-digit text names,
      or None where strptime raises ValueError. */
  function ParseDate(s: string): Option<(nat, nat, nat)> {
    if |s| == 8 && AllDigits(s) then
      var y, m, d := DigitsValue(s[..4]), DigitsValue(s[4..6]), DigitsValue(s[6..]);
      if ValidDate(y, m, d) then Some((y, m, d)) else None
    else None
  }

  /** Formatting a valid date gives eight digits that parse back to the same date. */
  lemma FormatThenParse(y: nat, m: nat, d: nat)
    requires ValidDate(y, m, d)
    ensures |FormatDate(y, m, d)| == 8
    ensures ParseDate(FormatDate(y, m, d)) == Some((y, m, d))
  {
    var s := FormatDate(y, m, d);
    assert s[..4] == Pad(y, 4) && s[4..6] == Pad(m, 2) && s[6..] == Pad(d, 2);
    PadValue(y, 4);
    PadValue(m, 2);
    PadValue(d, 2);
  }

  /** Every text the parser accepts is the formatted form of the valid date it yields. */
  lemma ParseThenFormat(s: string)
    requires ParseDate(s).Some?
    ensures ValidDate(ParseDate(s).value.0, ParseDate(s).value.1, ParseDate(s).value.2)
    ensures FormatDate(ParseDate(s).value.0, ParseDate(s).value.1, ParseDate(s).value.2) == s
  {
    PadDigitsValue(s[..4]);
    PadDigitsValue(s[4..6]);
    PadDigitsValue(s[6..]);
    assert s == s[..4] + s[4..6] + s[6..];
  }
}
