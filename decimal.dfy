/**
  Decimal numerals: the `{}` formatting of an unsigned number, and
  `str::parse::<usize>` for a 64-bit `usize` (an optional `+`, then one or
  more ASCII digits, and a value that fits in 64 bits).
*/
module Decimal {
  import opened Wrappers

  /** One more than the largest 64-bit `usize`. */
  const UsizeLimit: nat := 0x1_0000_0000_0000_0000

  /** One more than `isize::MAX`, the largest byte count a `Vec` may hold. */
  const IsizeLimit: nat := 0x8000_0000_0000_0000

  predicate IsDigit(c: char)
  {
    '0' <= c <= '9'
  }

  predicate AllDigits(s: string)
  {
    forall i :: 0 <= i < |s| ==> IsDigit(s[i])
  }

  function DigitValue(c: char): (d: nat)
    requires IsDigit(c)
    ensures d < 10
  {
    c as int - '0' as int
  }

  function DigitChar(d: nat): (c: char)
    requires d < 10
    ensures IsDigit(c) && DigitValue(c) == d
  {
    ('0' as int + d) as char
  }

  /** The value of a string of digits, most significant first. */
  function DigitsValue(s: string): nat
    requires AllDigits(s)
  {
    if |s| == 0 then 0 else DigitsValue(s[..|s| - 1]) * 10 + DigitValue(s[|s| - 1])
  }

  /** `format!("{}", n)`: the shortest decimal numeral of `n`. */
  function NatToString(n: nat): (s: string)
    ensures |s| >= 1 && AllDigits(s)
    ensures DigitsValue(s) == n
    ensures |s| > 1 ==> s[0] != '0'
  {
    if n < 10 then [DigitChar(n)]
    else
      var s := NatToString(n / 10) + [DigitChar(n % 10)];
      assert s[..|s| - 1] == NatToString(n / 10);
      s
  }

  /** The digits that follow an optional leading `+`. */
  function Unsigned(s: string): (d: string)
    ensures d == s || (|s| > 0 && s[0] == '+' && d == s[1..])
  {
    if |s| > 0 && s[0] == '+' then s[1..] else s
  }

  /** `s.parse::<usize>()`, with `None` for every error. */
  function ParseUsize(s: string): (r: Option<nat>)
    ensures r.Some? ==> r.value < UsizeLimit
    ensures r.Some? ==> |Unsigned(s)| > 0 && AllDigits(Unsigned(s)) && r.value == DigitsValue(Unsigned(s))
  {
    var d := Unsigned(s);
    if |d| > 0 && AllDigits(d) && DigitsValue(d) < UsizeLimit then Some(DigitsValue(d)) else None
  }

  /** A numeral written by `NatToString` is read back as the same number. */
  lemma ParseFormatted(n: nat)
    requires n < UsizeLimit
    ensures ParseUsize(NatToString(n)) == Some(n)
    ensures ParseUsize("+" + NatToString(n)) == Some(n)
  {
    var s := NatToString(n);
    assert s[0] != '+';
    assert ("+" + s)[1..] == s;
  }

  /** Leading zeros do not change the value of a numeral. */
  lemma {:induction false} LeadingZero(s: string)
    requires AllDigits(s)
    ensures AllDigits("0" + s) && DigitsValue("0" + s) == DigitsValue(s)
    decreases |s|
  {
    var z := "0" + s;
    if |s| > 0 {
      assert z[..|z| - 1] == "0" + s[..|s| - 1];
      LeadingZero(s[..|s| - 1]);
    }
  }

  /** `parse` accepts leading zeros: `Content-Length: 007` announces seven bytes. */
  lemma ParseLeadingZero(s: string)
    requires |s| > 0 && AllDigits(s)
    ensures ParseUsize("0" + s) == ParseUsize(s)
  {
    LeadingZero(s);
  }

  /** The numerals `parse` refuses: empty, a sign alone, a minus sign, a non-digit, too large. */
  lemma ParseRejects(n: nat)
    requires n >= UsizeLimit
    ensures ParseUsize("") == None
    ensures ParseUsize("+") == None
    ensures ParseUsize("-1") == None
    ensures ParseUsize("1 ") == None
    ensures ParseUsize(NatToString(n)) == None
  {
    assert !IsDigit("-1"[0]);
    assert !IsDigit("1 "[1]);
  }
}
