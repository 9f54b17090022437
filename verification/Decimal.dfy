/** Decimal text as the library writes it (std::to_string) and reads it back
    (std::stoi in the message decoder, Lua's number coercion in the scripts). */
module Decimal {
  import opened Tables

  const INT_MAX: int := 0x7fff_ffff
  const INT_MIN: int := -0x8000_0000

  predicate IsDigit(c: char) { '0' <= c <= '9' }

  predicate IsSpace(c: char) { c == ' ' || '\t' <= c <= '\r' }

  function Digit(d: nat): (c: char)
    requires d < 10
    ensures IsDigit(c) && DigitValue(c) == d
  {
    '0' + d as char
  }

  function DigitValue(c: char): (d: nat)
    requires IsDigit(c)
    ensures d < 10
  {
    c as int - '0' as int
  }

  /** std::to_string */
  function ToString(n: nat): (s: string)
    ensures s != [] && forall c | c in s :: IsDigit(c)
  {
    if n < 10 then [Digit(n)] else ToString(n / 10) + [Digit(n % 10)]
  }

  function DigitsValue(s: string): nat
    requires forall c | c in s :: IsDigit(c)
  {
    if s == [] then 0 else 10 * DigitsValue(s[..|s| - 1]) + DigitValue(s[|s| - 1])
  }

  /** The longest run of digits at the front. */
  function DigitRun(s: string): (d: string)
    ensures d <= s && forall c | c in d :: IsDigit(c)
    ensures |d| < |s| ==> !IsDigit(s[|d|])
  {
    if s == [] || !IsDigit(s[0]) then []
    else
      assert s == [s[0]] + s[1..];
      [s[0]] + DigitRun(s[1..])
  }

  function SkipSpace(s: string): string {
    if s != [] && IsSpace(s[0]) then SkipSpace(s[1..]) else s
  }

  /** std::stoi: None stands for std::invalid_argument or std::out_of_range. */
  function Stoi(s: string): Option<int> {
    var t := SkipSpace(s);
    var negative := t != [] && t[0] == '-';
    var digits := DigitRun(if t != [] && (t[0] == '-' || t[0] == '+') then t[1..] else t);
    if digits == [] then None
    else
      var v: int := if negative then 0 - DigitsValue(digits) else DigitsValue(digits);
      if INT_MIN <= v <= INT_MAX then Some(v) else None
  }

  /** Lua's coercion of a string of digits to a number. */
  function ToNumber(s: string): Option<nat> {
    if s != [] && DigitRun(s) == s then Some(DigitsValue(s)) else None
  }

  lemma {:induction false} ToStringValue(n: nat)
    ensures DigitsValue(ToString(n)) == n
  {
    if n >= 10 {
      ToStringValue(n / 10);
      var s := ToString(n);
      assert s[..|s| - 1] == ToString(n / 10);
    } else {
      assert ToString(n)[..0] == [];
    }
  }

  lemma {:induction false} DigitRunAll(s: string)
    requires forall c | c in s :: IsDigit(c)
    ensures DigitRun(s) == s
  {
    if s != [] {
      DigitRunAll(s[1..]);
    }
  }

  /** stoi undoes to_string exactly on the counts that fit an int. */
  lemma StoiToString(n: nat)
    ensures Stoi(ToString(n)) == if n <= INT_MAX then Some(n) else None
  {
    ToStringValue(n);
    DigitRunAll(ToString(n));
    assert IsDigit(ToString(n)[0]);
  }

  lemma ToNumberToString(n: nat)
    ensures ToNumber(ToString(n)) == Some(n)
  {
    ToStringValue(n);
    DigitRunAll(ToString(n));
  }
}
