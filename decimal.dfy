/** Decimal text of integers, as std::to_string and `stream << int` write
    them: the digits of the magnitude without leading zeros, behind a '-'
    for negative values. */
module Decimal {

  predicate IsDigit(c: char) {
    '0' <= c <= '9'
  }

  predicate AllDigits(s: string) {
    forall i :: 0 <= i < |s| ==> IsDigit(s[i])
  }

  function DigitChar(d: nat): (c: char)
    requires d < 10
    ensures IsDigit(c)
  {
    ('0' as int + d) as char
  }

  /** The decimal digits of `n`, most significant first. */
  function NatToString(n: nat): (r: string)
    decreases n
  {
    if n < 10 then [DigitChar(n)] else NatToString(n / 10) + [DigitChar(n % 10)]
  }

  /** std::to_string(i). */
  function IntToString(i: int): (r: string) {
    if i < 0 then "-" + NatToString(-i) else NatToString(i)
  }

  /** The number a string of decimal digits denotes. */
  function DigitsValue(s: string): (r: nat)
    requires AllDigits(s)
  {
    if s == [] then 0 else DigitsValue(s[..|s| - 1]) * 10 + (s[|s| - 1] as int - '0' as int)
  }

  /** The digits of `n` are a non-empty numeral without a leading zero
      (unless `n` is 0) that denotes `n` again. */
  lemma {:induction false} NatToStringNumeral(n: nat)
    ensures var r := NatToString(n);
      r != [] && AllDigits(r) && (r[0] == '0' ==> n == 0) && DigitsValue(r) == n
    decreases n
  {
    var r := NatToString(n);
    if n >= 10 {
      var front := NatToString(n / 10);
      NatToStringNumeral(n / 10);
      assert r == front + [DigitChar(n % 10)];
      assert r[..|r| - 1] == front;
      assert r[0] == front[0];
      assert DigitsValue(r) == (n / 10) * 10 + n % 10;
    }
  }

  /** The text of `i` starts with '-' exactly for negative `i`; the rest
      is the numeral of its magnitude. */
  lemma IntToStringShape(i: int)
    ensures var r := IntToString(i);
      r != [] && (r[0] == '-' <==> i < 0)
      && (i < 0 ==> r[1..] == NatToString(-i))
      && (i >= 0 ==> r == NatToString(i))
  {
    if i < 0 {
      NatToStringNumeral(-i);
      assert IntToString(i)[1..] == NatToString(-i);
    } else {
      NatToStringNumeral(i);
      assert IsDigit(NatToString(i)[0]);
    }
  }

  lemma NumeralInjective(m: nat, n: nat)
    requires NatToString(m) == NatToString(n)
    ensures m == n
  {
    NatToStringNumeral(m);
    NatToStringNumeral(n);
  }

  /** Different integers have different texts. */
  lemma IntToStringInjective(i: int, j: int)
    requires IntToString(i) == IntToString(j)
    ensures i == j
  {
    IntToStringShape(i);
    IntToStringShape(j);
    var r := IntToString(i);
    if r[0] == '-' {
      NumeralInjective(-i, -j);
    } else {
      NumeralInjective(i, j);
    }
  }

  /** No character of the text of an integer is `c` when `c` is neither a
      digit nor '-'. */
  lemma IntToStringAvoids(i: int, c: char)
    requires !IsDigit(c) && c != '-'
    ensures c !in IntToString(i)
  {
    IntToStringShape(i);
    if i < 0 {
      NatToStringNumeral(-i);
      var r := IntToString(i);
      assert r == [r[0]] + r[1..];
    } else {
      NatToStringNumeral(i);
    }
  }
}
