/**
 * Decimal rendering and parsing of unsigned integers: Rust's `{}` formatting
 * of an unsigned value and `str::parse` for `u8`/`u32`, which accepts an
 * optional `+` followed by one or more ASCII digits whose value is in range.
 */
module Decimal {
  import opened Wrappers

  predicate IsDigit(c: char) {
    '0' <= c <= '9'
  }

  predicate AllDigits(s: string) {
    forall i :: 0 <= i < |s| ==> IsDigit(s[i])
  }

  function DigitChar(d: nat): (c: char)
    requires d < 10
    ensures IsDigit(c) && c as int - '0' as int == d
  {
    (('0' as int) + d) as char
  }

  function DigitValue(c: char): nat
    requires IsDigit(c)
  {
    c as int - '0' as int
  }

  /** The shortest decimal rendering of `n` (no sign, no leading zeros). */
  function ToDecimal(n: nat): (s: string)
    ensures |s| >= 1 && AllDigits(s)
    ensures s[0] == '0' ==> n == 0
  {
    if n < 10 then [DigitChar(n)] else ToDecimal(n / 10) + [DigitChar(n % 10)]
  }

  /** The value of a string of digits, most significant first. */
  function DigitsValue(s: string): nat
    requires AllDigits(s)
  {
    if |s| == 0 then 0 else DigitsValue(s[..|s| - 1]) * 10 + DigitValue(s[|s| - 1])
  }

  /**
   * `str::parse` for an unsigned integer type whose values are below `bound`:
   * an optional leading `+`, then at least one digit, no other character,
   * and a value below `bound`.
   */
  function ParseUnsigned(s: string, bound: nat): (r: Option<nat>)
    ensures r.Some? ==> r.value < bound
  {
    var digits := if |s| > 0 && s[0] == '+' then s[1..] else s;
    if |digits| == 0 || !AllDigits(digits) then None
    else
      var v := DigitsValue(digits);
      if v < bound then Some(v) else None
  }

  /** One more digit at the end multiplies the value by ten and adds the digit. */
  lemma DigitsValueSnoc(s: string, c: char)
    requires AllDigits(s) && IsDigit(c)
    ensures AllDigits(s + [c])
    ensures DigitsValue(s + [c]) == DigitsValue(s) * 10 + DigitValue(c)
  {
    assert (s + [c])[..|s|] == s;
  }

  lemma {:induction false} DigitsValueOfDecimal(n: nat)
    ensures DigitsValue(ToDecimal(n)) == n
  {
    if n >= 10 {
      var s := ToDecimal(n);
      assert s[..|s| - 1] == ToDecimal(n / 10);
      DigitsValueOfDecimal(n / 10);
    }
  }

  /** Rendering then parsing gives the value back, with or without a `+`. */
  lemma ParseToDecimal(n: nat, bound: nat)
    requires n < bound
    ensures ParseUnsigned(ToDecimal(n), bound) == Some(n)
    ensures ParseUnsigned("+" + ToDecimal(n), bound) == Some(n)
  {
    DigitsValueOfDecimal(n);
    assert ("+" + ToDecimal(n))[1..] == ToDecimal(n);
  }

  /** Parsing accepts exactly the strings that are `+`-optional digit strings of a value below the bound. */
  lemma ParseUnsignedAccepts(s: string, bound: nat, n: nat)
    ensures ParseUnsigned(s, bound) == Some(n) <==>
      (exists digits :: (s == digits || s == "+" + digits) && |digits| > 0 && AllDigits(digits)
                        && DigitsValue(digits) == n && n < bound)
  {
    if ParseUnsigned(s, bound) == Some(n) {
      var digits := if |s| > 0 && s[0] == '+' then s[1..] else s;
      if |s| > 0 && s[0] == '+' {
        assert s == "+" + digits;
      }
    }
  }

  /** No byte other than an optional leading `+` and digits is accepted: whitespace and `-` are rejected. */
  lemma ParseRejectsNonDigit(s: string, bound: nat, i: nat)
    requires i < |s| && !IsDigit(s[i]) && !(i == 0 && s[i] == '+')
    ensures ParseUnsigned(s, bound) == None
  {
    if |s| > 0 && s[0] == '+' {
      assert s[1..][i - 1] == s[i];
    }
  }

  /** Leading zeros do not change the parsed value. */
  lemma {:induction false} LeadingZeros(z: nat, s: string)
    requires AllDigits(s)
    ensures AllDigits(seq(z, _ => '0') + s)
    ensures DigitsValue(seq(z, _ => '0') + s) == DigitsValue(s)
  {
    if |s| == 0 {
      ZerosValue(z);
      assert seq(z, _ => '0') + s == seq(z, _ => '0');
    } else {
      var t := seq(z, _ => '0') + s;
      assert t[..|t| - 1] == seq(z, _ => '0') + s[..|s| - 1];
      LeadingZeros(z, s[..|s| - 1]);
    }
  }

  lemma {:induction false} ZerosValue(z: nat)
    ensures AllDigits(seq(z, _ => '0'))
    ensures DigitsValue(seq(z, _ => '0')) == 0
  {
    if z > 0 {
      assert seq(z, _ => '0')[..z - 1] == seq(z - 1, _ => '0');
      ZerosValue(z - 1);
    }
  }
}
