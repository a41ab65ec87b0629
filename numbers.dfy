/**
 The JavaScript numbers the download pipeline computes with: integers read by
 `parseInt(text, 10)`, the arithmetic on them (NaN propagates), and their
 decimal rendering inside a template string.
 */
module Numbers {

  /** A JavaScript number as this core produces it: an integer, or NaN when parsing found no digit. */
  datatype Num = NaN | Int(i: int)

  predicate IsDigit(c: char) {
    '0' <= c <= '9'
  }

  predicate AllDigits(s: string) {
    forall k :: 0 <= k < |s| ==> IsDigit(s[k])
  }

  function DigitValue(c: char): (d: nat)
    requires IsDigit(c)
    ensures d < 10
  {
    (c as int) - ('0' as int)
  }

  function DigitChar(d: nat): (c: char)
    requires d < 10
    ensures IsDigit(c) && DigitValue(c) == d
  {
    (('0' as int) + d) as char
  }

  /** The value of a string of decimal digits, most significant first. */
  function Value(ds: string): nat
    requires AllDigits(ds)
  {
    if ds == [] then 0 else Value(ds[..|ds| - 1]) * 10 + DigitValue(ds[|ds| - 1])
  }

  /** The length of the longest prefix of `s` made of decimal digits. */
  function LeadingDigits(s: string): (n: nat)
    ensures n <= |s|
    ensures AllDigits(s[..n])
    ensures n < |s| ==> !IsDigit(s[n])
  {
    if s == [] || !IsDigit(s[0]) then 0
    else
      var n := 1 + LeadingDigits(s[1..]);
      assert s[..n] == [s[0]] + s[1..][..n - 1];
      n
  }

  /** `parseInt(s, 10)`: the value of the leading run of decimal digits, NaN when `s` does not start with a digit. */
  function ParseInt(s: string): (r: Num)
    ensures r.Int? <==> |s| > 0 && IsDigit(s[0])
    ensures r.Int? ==> r.i >= 0
  {
    var n := LeadingDigits(s);
    if n == 0 then NaN else Int(Value(s[..n]))
  }

  /** The decimal rendering of a natural number, without leading zeros. */
  function ShowNat(n: nat): (s: string)
    ensures |s| >= 1 && AllDigits(s)
    ensures (s[0] == '0') == (n == 0)
  {
    if n < 10 then [DigitChar(n)] else ShowNat(n / 10) + [DigitChar(n % 10)]
  }

  /** How a template string renders a number: `NaN`, or the decimal digits with a leading `-` when negative. */
  function Show(x: Num): string {
    match x
    case NaN => "NaN"
    case Int(i) => if i < 0 then "-" + ShowNat(-i) else ShowNat(i)
  }

  /** JavaScript `a - b`. */
  function Minus(a: Num, b: Num): (r: Num)
    ensures r.Int? <==> a.Int? && b.Int?
  {
    if a.Int? && b.Int? then Int(a.i - b.i) else NaN
  }

  /** JavaScript `a + b` on numbers. */
  function Plus(a: Num, b: Num): (r: Num)
    ensures r.Int? <==> a.Int? && b.Int?
  {
    if a.Int? && b.Int? then Int(a.i + b.i) else NaN
  }

  /** Rendering a number and reading it back gives the number. */
  lemma {:induction false} ValueOfShowNat(n: nat)
    ensures Value(ShowNat(n)) == n
  {
    if n >= 10 {
      var s := ShowNat(n);
      ValueOfShowNat(n / 10);
      assert s[..|s| - 1] == ShowNat(n / 10);
    }
  }

  /** `parseInt` reads a digit run up to the first character that is not a digit. */
  lemma ParseIntOfDigitsThen(ds: string, rest: string)
    requires |ds| > 0 && AllDigits(ds)
    requires rest == [] || !IsDigit(rest[0])
    ensures ParseInt(ds + rest) == Int(Value(ds))
  {
    LeadingDigitsOf(ds, rest);
    assert (ds + rest)[..|ds|] == ds;
  }

  lemma {:induction false} LeadingDigitsOf(ds: string, rest: string)
    requires AllDigits(ds)
    requires rest == [] || !IsDigit(rest[0])
    ensures LeadingDigits(ds + rest) == |ds|
    decreases |ds|
  {
    if ds != [] {
      assert (ds + rest)[1..] == ds[1..] + rest;
      LeadingDigitsOf(ds[1..], rest);
    } else {
      assert ds + rest == rest;
    }
  }

  /** `parseInt` inverts the decimal rendering of a natural number. */
  lemma ParseShowNat(n: nat, rest: string)
    requires rest == [] || !IsDigit(rest[0])
    ensures ParseInt(ShowNat(n) + rest) == Int(n)
  {
    ParseIntOfDigitsThen(ShowNat(n), rest);
    ValueOfShowNat(n);
  }

  /** The renderings the range examples use. */
  lemma ShowNatExamples()
    ensures ShowNat(10) == "10" && ShowNat(19) == "19" && ShowNat(100) == "100"
  {
    assert ShowNat(1) == "1" && ShowNat(10) == ShowNat(1) + "0";
    assert ShowNat(19) == ShowNat(1) + "9";
    assert ShowNat(100) == ShowNat(10) + "0";
  }
}
