/** Decimal integer literals: the subset of Python's `int(token)` that the
    statistics line uses, and `str(n)` as its formatter.

    A literal is an optional `-` followed by at least one ASCII digit; leading
    zeros are accepted, as `int` accepts them.
 */
module Integers {
  import opened Results

  predicate IsDigit(c: char)
  {
    '0' <= c <= '9'
  }

  predicate AllDigits(s: string)
  {
    forall i :: 0 <= i < |s| ==> IsDigit(s[i])
  }

  function DigitValue(c: char): nat
    requires IsDigit(c)
  {
    c as int - '0' as int
  }

  function DigitChar(d: nat): (c: char)
    requires d < 10
    ensures IsDigit(c) && DigitValue(c) == d
  {
    ('0' as int + d) as char
  }

  /** The value of a run of decimal digits, most significant digit first. */
  function DigitsValue(s: string): nat
    requires AllDigits(s)
  {
    if |s| == 0 then 0
    else DigitsValue(s[..|s| - 1]) * 10 + DigitValue(s[|s| - 1])
  }

  /** An integer literal: at least one character, every character after the
      first a digit, and the first either a digit or a minus sign followed by
      more. */
  predicate IsIntLiteral(token: string)
  {
    && 0 < |token|
    && (forall i :: 0 < i < |token| ==> IsDigit(token[i]))
    && (IsDigit(token[0]) || (token[0] == '-' && 1 < |token|))
  }

  /** `int(token)`: `None` where Python raises `ValueError`. */
  function ParseInt(token: string): (r: Option<int>)
    ensures r.Some? <==> IsIntLiteral(token)
    ensures r.Some? && token[0] == '-' ==> r.value <= 0
    ensures r.Some? && token[0] != '-' ==> r.value >= 0
    ensures r.Some? ==> r.value == if token[0] == '-' then -(DigitsValue(token[1..]) as int) else DigitsValue(token) as int
  {
    if 0 < |token| && token[0] == '-' then
      var digits := token[1..];
      if 0 < |digits| && AllDigits(digits) then Some(-(DigitsValue(digits) as int)) else None
    else if 0 < |token| && AllDigits(token) then Some(DigitsValue(token))
    else None
  }

  /** `str(n)` for a non-negative `n`: its shortest decimal spelling. */
  function FormatNat(n: nat): (s: string)
    ensures 0 < |s| && AllDigits(s)
    ensures DigitsValue(s) == n
    ensures |s| > 1 ==> s[0] != '0'
  {
    if n < 10 then [DigitChar(n)]
    else
      var init := FormatNat(n / 10);
      var s := init + [DigitChar(n % 10)];
      assert s[..|s| - 1] == init;
      s
  }

  /** `str(n)`. */
  function FormatInt(n: int): (s: string)
    ensures forall i :: 0 <= i < |s| ==> s[i] == '-' || IsDigit(s[i])
  {
    if n < 0 then "-" + FormatNat(-n) else FormatNat(n)
  }

  /** `int(str(n)) == n`. */
  lemma ParseFormat(n: int)
    ensures ParseInt(FormatInt(n)) == Some(n)
  {
  }
}
