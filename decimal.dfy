/*
 * Decimal text of integers: the "%d" conversion that String::format applies
 * to command arguments, and Integer::parseInt, which reads the tick of a
 * clock indication.
 */
module Decimal {
  import opened Wrappers

  const INT32_MIN: int := -0x8000_0000
  const INT32_MAX: int := 0x7fff_ffff

  predicate IsInt32(x: int)
  {
    INT32_MIN <= x <= INT32_MAX
  }

  predicate IsDigit(c: char)
  {
    '0' <= c <= '9'
  }

  predicate AllDigits(s: string)
  {
    forall i :: 0 <= i < |s| ==> IsDigit(s[i])
  }

  function DigitValue(c: char): nat
    requires IsDigit(c)
  {
    c as int - '0' as int
  }

  function DigitChar(d: nat): (c: char)
    requires d < 10
    ensures IsDigit(c) && DigitValue(c) == d
  {
    (d + '0' as int) as char
  }

  /** The decimal digits of n, most significant first, with no leading zero. */
  function Digits(n: nat): (s: string)
    ensures 0 < |s| && AllDigits(s)
    ensures s[0] == '0' ==> n == 0
  {
    if n < 10 then [DigitChar(n)] else Digits(n / 10) + [DigitChar(n % 10)]
  }

  /** The number a string of digits denotes. */
  function Value(s: string): nat
    requires AllDigits(s)
  {
    if s == [] then 0 else Value(s[..|s| - 1]) * 10 + DigitValue(s[|s| - 1])
  }

  lemma {:induction false} ValueOfDigits(n: nat)
    ensures Value(Digits(n)) == n
  {
    if n >= 10 {
      ValueOfDigits(n / 10);
      var s := Digits(n);
      assert s[..|s| - 1] == Digits(n / 10);
    }
  }

  /** printf's "%d": a minus sign for negative numbers, then the digits. */
  function Format(x: int): (s: string)
    ensures 0 < |s|
    ensures forall i :: 0 <= i < |s| ==> s[i] == '-' || IsDigit(s[i])
  {
    if x < 0 then "-" + Digits(-x) else Digits(x)
  }

  /** Integer::parseInt: an optional sign, at least one digit and nothing
      else, denoting a 32-bit value; anything else is the
      NumberFormatException (None). */
  function ParseInt(s: string): (r: Option<int>)
    ensures r.Some? ==> IsInt32(r.value)
    ensures r.Some? ==> 0 < |s| && forall i :: 0 <= i < |s| ==> s[i] in "+-" || IsDigit(s[i])
  {
    if |s| == 0 then None
    else
      var digits := if s[0] == '-' || s[0] == '+' then s[1..] else s;
      if |digits| == 0 || !AllDigits(digits) then None
      else
        var v := if s[0] == '-' then 0 - Value(digits) as int else Value(digits) as int;
        if IsInt32(v) then Some(v) else None
  }

  /** parseInt reads back every 32-bit value that "%d" prints. */
  lemma ParseFormat(x: int)
    requires IsInt32(x)
    ensures ParseInt(Format(x)) == Some(x)
  {
    var f := Format(x);
    if x < 0 {
      var d := Digits(-x);
      assert f == "-" + d && f[0] == '-' && f[1..] == d;
      ValueOfDigits(-x);
    } else {
      var d := Digits(x);
      assert f == d && f[0] != '-' && f[0] != '+';
      ValueOfDigits(x);
    }
  }
}
