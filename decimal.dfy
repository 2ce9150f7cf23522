/** Decimal digit strings: Python's `str` of a non-negative integer, the value of a
    run of ASCII digits, and the exact value of a digits-and-dots number such as the
    chi^2 figures embedded in the plot labels. */
module Decimal {

  predicate IsDigit(c: char) { '0' <= c <= '9' }

  predicate AllDigits(s: string) { forall k :: 0 <= k < |s| ==> IsDigit(s[k]) }

  function DigitValue(c: char): (d: nat)
    requires IsDigit(c)
    ensures d < 10
  {
    c as int - '0' as int
  }

  function DigitChar(d: nat): (c: char)
    requires d < 10
    ensures IsDigit(c) && DigitValue(c) == d
  {
    ('0' as int + d) as char
  }

  /** Python's `str(n)` for a non-negative integer: shortest decimal numeral. */
  function NatToString(n: nat): (s: string)
    ensures |s| > 0 && AllDigits(s)
    ensures |s| > 1 ==> s[0] != '0'
    decreases n
  {
    if n < 10 then [DigitChar(n)] else NatToString(n / 10) + [DigitChar(n % 10)]
  }

  /** The number a string of ASCII digits denotes (0 for the empty string). */
  function DigitsValue(s: string): nat
    requires AllDigits(s)
  {
    if s == [] then 0 else 10 * DigitsValue(s[..|s| - 1]) + DigitValue(s[|s| - 1])
  }

  /** Reading back the numeral `str(n)` gives `n`. */
  lemma {:induction false} DigitsValueOfNatToString(n: nat)
    ensures DigitsValue(NatToString(n)) == n
    decreases n
  {
    var s := NatToString(n);
    if n >= 10 {
      DigitsValueOfNatToString(n / 10);
      assert s[..|s| - 1] == NatToString(n / 10);
    }
  }

  /** `str` is injective: different integers print differently. */
  lemma NatToStringInjective(m: nat, n: nat)
    requires NatToString(m) == NatToString(n)
    ensures m == n
  {
    DigitsValueOfNatToString(m);
    DigitsValueOfNatToString(n);
  }

  function Pow10(k: nat): (p: nat)
    ensures p >= 1
  {
    if k == 0 then 1 else 10 * Pow10(k - 1)
  }

  /** Index of the first '.' in `t`, or `|t|` when there is none. */
  function FirstDot(t: string): (d: nat)
    ensures d <= |t|
    ensures forall k :: 0 <= k < d ==> t[k] != '.'
    ensures d < |t| ==> t[d] == '.'
  {
    if t == [] then 0
    else if t[0] == '.' then 0
    else 1 + FirstDot(t[1..])
  }

  predicate IsNumberChar(c: char) { IsDigit(c) || c == '.' }

  predicate AllNumberChars(t: string) { forall k :: 0 <= k < |t| ==> IsNumberChar(t[k]) }

  /** At most one '.' in `t`. */
  predicate AtMostOneDot(t: string)
  {
    forall j, k :: 0 <= j < k < |t| && t[j] == '.' ==> t[k] != '.'
  }

  predicate HasDigit(t: string)
  {
    exists k :: 0 <= k < |t| && IsDigit(t[k])
  }

  /** The exact value Python's `float` reads from a run of digits and dots, or None
      where `float` raises (two dots, or no digit at all: "", ".", "1.2.3"). */
  function DecimalValue(t: string): (r: Option<real>)
    requires AllNumberChars(t)
    ensures r.Some? <==> AtMostOneDot(t) && HasDigit(t)
    ensures r.Some? ==> r.value >= 0.0
  {
    var d := FirstDot(t);
    if d == |t| then
      if t == [] then None
      else
        assert IsDigit(t[0]);
        Some(DigitsValue(t) as real)
    else
      var ip, fp := t[..d], t[d + 1..];
      assert forall k :: 0 <= k < |ip| ==> ip[k] == t[k];
      assert forall k :: 0 <= k < |fp| ==> fp[k] == t[d + 1 + k];
      if !AllDigits(fp) then
        assert !AtMostOneDot(t);
        None
      else if ip == [] && fp == [] then
        assert |t| == 1 && !IsDigit(t[0]);
        None
      else
        assert AtMostOneDot(t);
        assert if ip != [] then IsDigit(t[0]) else IsDigit(t[d + 1]);
        Some(DigitsValue(ip) as real + DigitsValue(fp) as real / Pow10(|fp|) as real)
  }

  datatype Option<T> = None | Some(value: T)

  /** A numeral printed by `str` reads back, as a decimal, to the same integer. */
  lemma DecimalValueOfNatToString(n: nat)
    ensures DecimalValue(NatToString(n)) == Some(n as real)
  {
    var s := NatToString(n);
    assert FirstDot(s) == |s|;
    DigitsValueOfNatToString(n);
  }
}
