/**
 * Python's `str()` on integers: the decimal text that the category filters
 * compare the question's `category` column with.
 */
module Decimal {
  import opened Records

  function DigitChar(d: nat): (c: char)
    requires d < 10
    ensures '0' <= c <= '9'
    ensures c as int - 48 == d
  {
    (48 + d) as char
  }

  predicate IsDigit(c: char)
  {
    '0' <= c <= '9'
  }

  /** The value of one decimal digit (0 for any other character). */
  function DigitValue(c: char): nat
  {
    if IsDigit(c) then c as int - 48 else 0
  }

  /** The number a string of decimal digits denotes, most significant digit first. */
  function DigitsValue(s: string): nat
  {
    if s == [] then 0 else 10 * DigitsValue(s[..|s| - 1]) + DigitValue(s[|s| - 1])
  }

  /** The number a decimal numeral with an optional leading minus sign denotes. */
  function NumeralValue(s: string): int
  {
    if s != [] && s[0] == '-' then -(DigitsValue(s[1..]) as int) else DigitsValue(s)
  }

  /** Decimal numeral of a natural number, most significant digit first, no leading zero ("0" alone for zero). */
  function NatStr(n: nat): (r: string)
    ensures |r| >= 1
    ensures forall i :: 0 <= i < |r| ==> IsDigit(r[i])
    ensures r[0] == '0' ==> r == "0"
    ensures DigitsValue(r) == n
  {
    if n < 10 then
      assert [DigitChar(n)][..0] == [];
      [DigitChar(n)]
    else
      var prefix := NatStr(n / 10);
      var r := prefix + [DigitChar(n % 10)];
      assert r[..|r| - 1] == prefix;
      r
  }

  /**
   * `str(n)` for a Python int: the decimal numeral of `n`, with a minus sign
   * when negative and no leading zero, so exactly one text per integer.
   */
  function Str(n: int): (r: string)
    ensures |r| >= 1
    ensures n >= 0 ==> forall i :: 0 <= i < |r| ==> IsDigit(r[i])
    ensures n < 0 ==> r[0] == '-' && forall i :: 1 <= i < |r| ==> IsDigit(r[i])
    ensures n >= 0 ==> (r[0] == '0' ==> r == "0")
    ensures n < 0 ==> |r| >= 2 && r[1] != '0'
    ensures NumeralValue(r) == n
  {
    if n < 0 then
      var r := "-" + NatStr(-n);
      assert r[1..] == NatStr(-n);
      r
    else NatStr(n)
  }

  /**
   * `str(x)` for an optional integer, where Python writes `None` for a
   * missing value: the text is "None" exactly for a missing value, and
   * otherwise a numeral denoting the integer.
   */
  function OptionStr(x: Option<int>): (r: string)
    ensures r == "None" <==> x.None?
    ensures x.Some? ==> NumeralValue(r) == x.value
  {
    match x
    case None => "None"
    case Some(n) =>
      var r := Str(n);
      assert r[0] != "None"[0];
      r
  }

  /** The category ids of the test data render as their usual numerals. */
  lemma StrExamples()
    ensures Str(1) == "1" && Str(12) == "12" && Str(-7) == "-7"
  {
  }

  /** Distinct integers have distinct decimal texts: each text denotes its integer. */
  lemma StrInjective(a: int, b: int)
    requires Str(a) == Str(b)
    ensures a == b
  {
  }

  /** Distinct optional ids give distinct filter texts; `None` never matches a number's text. */
  lemma OptionStrInjective(x: Option<int>, y: Option<int>)
    requires OptionStr(x) == OptionStr(y)
    ensures x == y
  {
  }
}
