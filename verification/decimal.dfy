/**
 * `std::to_wstring` of an unsigned value: its decimal digits, most
 * significant first, with no sign and no leading zero. A reader of digit
 * runs is its inverse.
 */
module Decimal {
  import opened Wrappers

  predicate IsDigit(c: char) { '0' <= c <= '9' }

  function DigitChar(d: nat): (c: char)
    requires d < 10
    ensures IsDigit(c)
  {
    "0123456789"[d]
  }

  function DigitValue(c: char): (d: nat)
    requires IsDigit(c)
    ensures d < 10
  {
    c as int - '0' as int
  }

  /** The decimal text of `n`. */
  function ToDecimal(n: nat): (s: string)
    ensures |s| >= 1
    ensures forall i :: 0 <= i < |s| ==> IsDigit(s[i])
    ensures s[0] == '0' ==> n == 0 && s == "0"
  {
    if n < 10 then [DigitChar(n)] else ToDecimal(n / 10) + [DigitChar(n % 10)]
  }

  /** The number a run of digits denotes. */
  function DigitsValue(s: string): nat
    requires forall i :: 0 <= i < |s| ==> IsDigit(s[i])
  {
    if s == [] then 0 else DigitsValue(s[..|s| - 1]) * 10 + DigitValue(s[|s| - 1])
  }

  /** The length of the longest run of digits at the front of `s`. */
  function DigitRun(s: string): (k: nat)
    ensures k <= |s|
    ensures forall i :: 0 <= i < k ==> IsDigit(s[i])
    ensures k < |s| ==> !IsDigit(s[k])
  {
    if s == [] || !IsDigit(s[0]) then 0 else 1 + DigitRun(s[1..])
  }

  /** Reads a non-empty run of digits at the front of `s`, returning its value and what follows. */
  function ReadNat(s: string): Option<(nat, string)>
  {
    var k := DigitRun(s);
    if k == 0 then None else Some((DigitsValue(s[..k]), s[k..]))
  }

  lemma DigitRoundTrip(d: nat)
    requires d < 10
    ensures DigitValue(DigitChar(d)) == d
  {
  }

  lemma {:induction false} ToDecimalValue(n: nat)
    ensures DigitsValue(ToDecimal(n)) == n
  {
    var s := ToDecimal(n);
    if n < 10 {
      DigitRoundTrip(n);
    } else {
      ToDecimalValue(n / 10);
      assert s[..|s| - 1] == ToDecimal(n / 10);
      DigitRoundTrip(n % 10);
    }
  }

  lemma {:induction false} DigitRunOfAppend(ds: string, rest: string)
    requires forall i :: 0 <= i < |ds| ==> IsDigit(ds[i])
    requires rest == [] || !IsDigit(rest[0])
    ensures DigitRun(ds + rest) == |ds|
  {
    if ds != [] {
      assert (ds + rest)[1..] == ds[1..] + rest;
      DigitRunOfAppend(ds[1..], rest);
    } else {
      assert ds + rest == rest;
    }
  }

  /**
   * Reading back the decimal text of `n` gives `n` and leaves exactly the text
   * that followed it, provided that text does not begin with a digit.
   */
  lemma ReadNatToDecimal(n: nat, rest: string)
    requires rest == [] || !IsDigit(rest[0])
    ensures ReadNat(ToDecimal(n) + rest) == Some((n, rest))
  {
    var s := ToDecimal(n);
    DigitRunOfAppend(s, rest);
    assert (s + rest)[..|s|] == s;
    assert (s + rest)[|s|..] == rest;
    ToDecimalValue(n);
  }

  /** Different numbers have different decimal texts. */
  lemma ToDecimalInjective(m: nat, n: nat)
    requires ToDecimal(m) == ToDecimal(n)
    ensures m == n
  {
    ToDecimalValue(m);
    ToDecimalValue(n);
  }

  lemma DecimalExamples()
    ensures ToDecimal(0) == "0"
    ensures ToDecimal(10) == "10"
    ensures ToDecimal(4294967295) == "4294967295"
  {
  }
}
