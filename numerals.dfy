/**
 * Python's int() applied to a string: surrounding whitespace is ignored,
 * then an optional sign and one or more decimal digits, at most 4300 of
 * them (CPython's default limit on integer string conversion). The
 * whitespace int() skips is str.isspace()'s set without the four
 * information separators U+001C..U+001F: CPython turns non-ASCII
 * whitespace into a space and then skips only ASCII space, tab, line
 * feed, vertical tab, form feed and carriage return. Anything else raises
 * ValueError, modelled here as None.
 */
module Numerals {
  import opened Options
  import opened Text

  predicate IsDigit(c: char) {
    '0' <= c <= '9'
  }

  predicate AllDigits(s: string) {
    forall k :: 0 <= k < |s| ==> IsDigit(s[k])
  }

  function DigitValue(c: char): nat
    requires IsDigit(c)
  {
    c as int - '0' as int
  }

  function DigitChar(d: nat): (c: char)
    requires d < 10
    ensures IsDigit(c) && DigitValue(c) == d
  {
    ('0' as int + d) as char
  }

  /** The value of a string of decimal digits, most significant first. */
  function DigitsValue(s: string): nat
    requires AllDigits(s)
  {
    if s == [] then 0 else DigitsValue(s[..|s| - 1]) * 10 + DigitValue(s[|s| - 1])
  }

  /** str(n) for a non-negative n: its shortest decimal numeral. */
  function FormatNat(n: nat): (r: string)
    ensures |r| > 0 && AllDigits(r)
  {
    if n < 10 then [DigitChar(n)] else FormatNat(n / 10) + [DigitChar(n % 10)]
  }

  /** str(n): a minus sign for a negative n, then the numeral of |n|. */
  function FormatInt(n: int): (r: string)
    ensures |r| > 0 && Trimmed(r)
  {
    var digits := FormatNat(if n < 0 then -n else n);
    assert !IsSpace(digits[0]) && !IsSpace(digits[|digits| - 1]);
    if n < 0 then "-" + digits else digits
  }

  /** The grammar int() accepts after stripping: an optional sign, then digits. */
  predicate IsNumeral(t: string) {
    if |t| > 0 && (t[0] == '+' || t[0] == '-') then |t| > 1 && AllDigits(t[1..])
    else |t| > 0 && AllDigits(t)
  }

  /** CPython's default limit on the number of digits int() converts. */
  const MaxStrDigits: nat := 4300

  /** The number of digits in a numeral: its length without the sign. */
  function DigitCount(t: string): nat {
    if |t| > 0 && (t[0] == '+' || t[0] == '-') then |t| - 1 else |t|
  }

  /** U+001C..U+001F: whitespace to str.strip(), but not to int(). */
  predicate IsSeparator(c: char) {
    '\U{1C}' <= c <= '\U{1F}'
  }

  predicate NoSeparator(s: string) {
    forall k :: 0 <= k < |s| ==> !IsSeparator(s[k])
  }

  /**
   * int(s) on a string: Some(value), or None where Python raises ValueError.
   * A separator can only stand in the padding of a numeral, which int()
   * does not skip, so any separator makes int() raise; without one, int()
   * skips exactly what str.strip() does.
   */
  function ParseInt(s: string): (r: Option<int>)
    ensures r.Some? ==> NoSeparator(s) && IsNumeral(Strip(s)) && DigitCount(Strip(s)) <= MaxStrDigits
    ensures NoSeparator(s) && IsNumeral(Strip(s)) && DigitCount(Strip(s)) <= MaxStrDigits ==> r.Some?
  {
    var t := Strip(s);
    if !NoSeparator(s) || DigitCount(t) > MaxStrDigits then None
    else if |t| > 0 && (t[0] == '+' || t[0] == '-') then
      if |t| > 1 && AllDigits(t[1..]) then
        var magnitude: int := DigitsValue(t[1..]);
        Some(if t[0] == '-' then -magnitude else magnitude)
      else None
    else if |t| > 0 && AllDigits(t) then Some(DigitsValue(t))
    else None
  }

  /** str(n) has at most as many digits as int() converts. */
  predicate WithinDigitLimit(n: int) {
    |FormatNat(if n < 0 then -n else n)| <= MaxStrDigits
  }

  /** Reading the numeral of n gives back n. */
  lemma {:induction false} DigitsValueOfFormatNat(n: nat)
    ensures DigitsValue(FormatNat(n)) == n
  {
    if n >= 10 {
      var s := FormatNat(n);
      assert s[..|s| - 1] == FormatNat(n / 10);
      DigitsValueOfFormatNat(n / 10);
    }
  }

  /** int(str(n)) == n for every integer n within the digit limit, negative ones included. */
  lemma ParseFormatRoundTrip(n: int)
    requires WithinDigitLimit(n)
    ensures ParseInt(FormatInt(n)) == Some(n)
  {
    var s := FormatInt(n);
    StripKeepsTrimmed(s);
    if n < 0 {
      assert s[1..] == FormatNat(-n);
      assert forall k :: 0 < k < |s| ==> s[k] == s[1..][k - 1];
      DigitsValueOfFormatNat(-n);
    } else {
      DigitsValueOfFormatNat(n);
    }
  }

  /** A numeral of more than 4300 digits raises, whatever its value. */
  lemma LongNumeralRaises(s: string)
    requires AllDigits(s) && |s| > MaxStrDigits
    ensures ParseInt(s) == None
  {
    StripKeepsTrimmed(s);
  }

  /** A separator next to a numeral, which str.strip() would remove, makes int() raise. */
  lemma SeparatorPaddingRaises(n: int)
    ensures ParseInt(FormatInt(n) + "\U{1F}") == None
  {
    var s := FormatInt(n) + "\U{1F}";
    assert IsSeparator(s[|s| - 1]);
  }

  /** Blank input is not a number: int("") and int("  ") both raise. */
  lemma BlankIsNotNumber(s: string)
    requires AllSpace(s)
    ensures ParseInt(s) == None
  {
  }
}
