/**
 * Go's strconv.Itoa and strconv.Atoi on a 64-bit platform: base-10 text
 * with an optional sign; Atoi fails on an empty string, a lone sign, any
 * non-digit and any value outside the 64-bit range.
 */
module Decimal {
  import opened Wrappers

  const MinInt64: int := -0x8000_0000_0000_0000
  const MaxInt64: int := 0x7FFF_FFFF_FFFF_FFFF

  /** Go's int and int64 on a 64-bit platform. */
  type Int64 = x: int | MinInt64 <= x <= MaxInt64

  predicate IsDigit(ch: char) {
    '0' <= ch <= '9'
  }

  predicate AllDigits(s: string) {
    forall i :: 0 <= i < |s| ==> IsDigit(s[i])
  }

  function DigitChar(d: nat): (ch: char)
    requires d < 10
    ensures IsDigit(ch)
  {
    ('0' as int + d) as char
  }

  function DigitValue(ch: char): (d: nat)
    requires IsDigit(ch)
    ensures d < 10 && DigitChar(d) == ch
  {
    ch as int - '0' as int
  }

  /** The decimal digits of n, without leading zeros. */
  function NatToString(n: nat): (s: string)
    ensures |s| >= 1 && AllDigits(s)
    ensures |s| > 1 ==> s[0] != '0'
  {
    if n < 10 then [DigitChar(n)] else NatToString(n / 10) + [DigitChar(n % 10)]
  }

  /** strconv.Itoa: a minus sign for negative values, then the digits. */
  function Itoa(x: int): (s: string)
    ensures |s| >= 1
    ensures x < 0 <==> s[0] == '-'
    ensures x < 0 ==> s[1..] == NatToString(-x)
    ensures x >= 0 ==> s == NatToString(x)
  {
    if x < 0 then "-" + NatToString(-x) else NatToString(x)
  }

  /** The value of a string of decimal digits (empty reads as 0). */
  function DigitsValue(s: string): nat
    requires AllDigits(s)
  {
    if s == [] then 0 else DigitsValue(s[..|s| - 1]) * 10 + DigitValue(s[|s| - 1])
  }

  /** strconv.Atoi: None stands for the non-nil error. */
  function Atoi(s: string): (r: Option<int>)
    ensures r.Some? ==> MinInt64 <= r.value <= MaxInt64
    ensures s == [] || s == "-" || s == "+" ==> r == None
    ensures |s| > 0 && !IsDigit(s[0]) && s[0] != '-' && s[0] != '+' ==> r == None
  {
    var signed := |s| > 0 && (s[0] == '+' || s[0] == '-');
    var body := if signed then s[1..] else s;
    if body == [] || !AllDigits(body) then None
    else
      var v: int := if signed && s[0] == '-' then 0 - DigitsValue(body) as int else DigitsValue(body);
      if MinInt64 <= v <= MaxInt64 then Some(v) else None
  }

  lemma {:induction false} DigitsOfNat(n: nat)
    ensures DigitsValue(NatToString(n)) == n
  {
    if n >= 10 {
      var s := NatToString(n);
      assert s[..|s| - 1] == NatToString(n / 10);
      DigitsOfNat(n / 10);
    }
  }

  /** Parsing the text Itoa produces gives the number back. */
  lemma AtoiItoa(x: Int64)
    ensures Atoi(Itoa(x)) == Some(x)
  {
    if x < 0 {
      AtoiNegative(x);
    } else {
      DigitsOfNat(x);
      assert NatToString(x)[0] != '+' && NatToString(x)[0] != '-';
    }
  }

  lemma AtoiNegative(x: Int64)
    requires x < 0
    ensures Atoi(Itoa(x)) == Some(x)
  {
    DigitsOfNat(-(x as int));
    assert Itoa(x)[1..] == NatToString(-(x as int));
  }

  /** Itoa never yields text Atoi rejects, and two values never share a text. */
  lemma ItoaInjective(x: Int64, y: Int64)
    requires Itoa(x) == Itoa(y)
    ensures x == y
  {
    AtoiItoa(x);
    AtoiItoa(y);
  }
}
