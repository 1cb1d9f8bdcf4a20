/**
 * The two pieces of Python string behaviour the page step relies on: the
 * substring test `needle in haystack`, and the decimal rendering of an `int`
 * inside an f-string (`f"{n}"`, which is `str(n)`). `ParseInt` reads such a
 * rendering back; it exists to state what the rendering means.
 */
module Text {
  import opened Wrappers

  /** `pattern` occurs in `text` starting at position `i`. */
  ghost predicate OccursAt(text: string, pattern: string, i: nat)
  {
    i + |pattern| <= |text| && text[i..i + |pattern|] == pattern
  }

  /** Python's `pattern in text` for strings. */
  function Contains(text: string, pattern: string): (found: bool)
    ensures found <==> exists i: nat :: OccursAt(text, pattern, i)
    decreases |text|
  {
    if |text| < |pattern| then
      false
    else if text[..|pattern|] == pattern then
      assert OccursAt(text, pattern, 0);
      true
    else
      OccurrenceShift(text, pattern);
      Contains(text[1..], pattern)
  }

  /** Away from position 0, the occurrences in `text` are those in `text[1..]`, shifted by one. */
  lemma OccurrenceShift(text: string, pattern: string)
    requires |pattern| <= |text| && text[..|pattern|] != pattern
    ensures (exists i: nat :: OccursAt(text, pattern, i)) <==> (exists i: nat :: OccursAt(text[1..], pattern, i))
  {
    if exists i: nat :: OccursAt(text, pattern, i) {
      var i: nat :| OccursAt(text, pattern, i);
      assert i != 0;
      assert text[1..][i - 1..i - 1 + |pattern|] == text[i..i + |pattern|];
      assert OccursAt(text[1..], pattern, i - 1);
    }
    if exists i: nat :: OccursAt(text[1..], pattern, i) {
      var i: nat :| OccursAt(text[1..], pattern, i);
      assert text[1..][i..i + |pattern|] == text[i + 1..i + 1 + |pattern|];
      assert OccursAt(text, pattern, i + 1);
    }
  }

  predicate IsDigit(c: char)
  {
    '0' <= c <= '9'
  }

  predicate AllDigits(s: string)
  {
    forall i :: 0 <= i < |s| ==> IsDigit(s[i])
  }

  function DigitChar(d: nat): (c: char)
    requires d < 10
  {
    ('0' as int + d) as char
  }

  /** `str(n)` for a non-negative `n`: at least one digit, and no leading zero unless `n` is zero. */
  function NatToDecimal(n: nat): (s: string)
    ensures |s| >= 1 && AllDigits(s)
    ensures s[0] == '0' <==> n == 0
    decreases n
  {
    if n < 10 then [DigitChar(n)] else NatToDecimal(n / 10) + [DigitChar(n % 10)]
  }

  /**
   * The form `str` gives an `int`: an optional minus sign, then at least one
   * digit, with no leading zero unless the whole number is zero (so never
   * `-0` or `07`).
   */
  predicate IsCanonicalDecimal(s: string)
  {
    if |s| >= 1 && s[0] == '-' then
      |s| >= 2 && AllDigits(s[1..]) && s[1] != '0'
    else
      |s| >= 1 && AllDigits(s) && (s[0] == '0' ==> |s| == 1)
  }

  /** `str(n)` for an `int` (CPython's digit limit is not modelled): a minus sign before the digits of a negative number. */
  function IntToDecimal(n: int): (s: string)
    ensures IsCanonicalDecimal(s)
    ensures s[0] == '-' <==> n < 0
  {
    if n < 0 then
      var digits := NatToDecimal(-n);
      assert ("-" + digits)[1..] == digits;
      "-" + digits
    else
      NatToDecimal(n)
  }

  /** The number a string of decimal digits denotes. */
  function DigitsValue(s: string): (value: nat)
    requires AllDigits(s)
    decreases |s|
  {
    if s == [] then 0 else 10 * DigitsValue(s[..|s| - 1]) + (s[|s| - 1] as int - '0' as int)
  }

  /** Reads an optionally negative decimal integer. */
  function ParseInt(s: string): (value: Option<int>)
  {
    if |s| >= 2 && s[0] == '-' && AllDigits(s[1..]) then Some(-(DigitsValue(s[1..]) as int))
    else if |s| >= 1 && AllDigits(s) then Some(DigitsValue(s))
    else None
  }

  lemma {:induction false} NatToDecimalValue(n: nat)
    ensures DigitsValue(NatToDecimal(n)) == n
    decreases n
  {
    if n >= 10 {
      var s := NatToDecimal(n);
      assert s[..|s| - 1] == NatToDecimal(n / 10);
      NatToDecimalValue(n / 10);
    }
  }

  /** The rendering of an `int` reads back as the same `int`. */
  lemma IntToDecimalRoundTrip(n: int)
    ensures ParseInt(IntToDecimal(n)) == Some(n)
  {
    var s := IntToDecimal(n);
    if n < 0 {
      assert s[1..] == NatToDecimal(-n);
      NatToDecimalValue(-n);
    } else {
      NatToDecimalValue(n);
      assert IsDigit(s[0]);
    }
  }

  /** A digit string that does not start with `0` denotes a positive number. */
  lemma {:induction false} LeadingDigitPositive(s: string)
    requires |s| >= 1 && AllDigits(s) && s[0] != '0'
    ensures DigitsValue(s) > 0
    decreases |s|
  {
    if |s| > 1 {
      LeadingDigitPositive(s[..|s| - 1]);
    }
  }

  /** A digit string without a superfluous leading zero is the rendering of its own value. */
  lemma {:induction false} CanonicalDigits(s: string)
    requires |s| >= 1 && AllDigits(s) && (s[0] == '0' ==> |s| == 1)
    ensures NatToDecimal(DigitsValue(s)) == s
    decreases |s|
  {
    if |s| > 1 {
      var init := s[..|s| - 1];
      LeadingDigitPositive(init);
      CanonicalDigits(init);
      var v := DigitsValue(s);
      assert v / 10 == DigitsValue(init) && v % 10 == s[|s| - 1] as int - '0' as int;
      assert s == init + [s[|s| - 1]];
    }
  }

  /**
   * A string in canonical form reads as an `int` whose rendering is that
   * same string: the rendering is the only canonical spelling of a number.
   */
  lemma CanonicalDecimalRoundTrip(s: string)
    requires IsCanonicalDecimal(s)
    ensures ParseInt(s).Some? && IntToDecimal(ParseInt(s).value) == s
  {
    if s[0] == '-' {
      CanonicalDigits(s[1..]);
      LeadingDigitPositive(s[1..]);
      assert s == "-" + s[1..];
    } else {
      CanonicalDigits(s);
    }
  }
}
