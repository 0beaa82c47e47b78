/** Character classes, digit runs, and the subsets of Python's `int(text)` and
    `float(text)` that the model uses: an optional sign followed by ASCII
    decimal digits, with an optional decimal point for `float`. */
module Text {

  import opened Wrappers

  predicate IsDigit(c: char) {
    '0' <= c <= '9'
  }

  function DigitValue(c: char): nat
    requires IsDigit(c)
  {
    c as int - '0' as int
  }

  predicate AllDigits(s: string) {
    forall i :: 0 <= i < |s| ==> IsDigit(s[i])
  }

  function Pow10(n: nat): (r: nat)
    ensures r > 0
  {
    if n == 0 then 1 else 10 * Pow10(n - 1)
  }

  /** The number a run of decimal digits spells, most significant first */
  function DigitsValue(s: string): nat
    requires AllDigits(s)
  {
    if |s| == 0 then 0 else 10 * DigitsValue(s[..|s| - 1]) + DigitValue(s[|s| - 1])
  }

  /** The end of the run of digits that starts at `i` */
  function RunEnd(s: string, i: nat): (r: nat)
    requires i <= |s|
    ensures i <= r <= |s|
    ensures forall j :: i <= j < r ==> IsDigit(s[j])
    ensures r == |s| || !IsDigit(s[r])
    decreases |s| - i
  {
    if i < |s| && IsDigit(s[i]) then RunEnd(s, i + 1) else i
  }

  /** Python's `int(text)`: an optional `+` or `-` and at least one digit */
  function ParseInt(s: string): Option<int> {
    if |s| > 0 && (s[0] == '+' || s[0] == '-') then
      var t := s[1..];
      if |t| > 0 && AllDigits(t) then
        Some(if s[0] == '-' then -(DigitsValue(t) as int) else DigitsValue(t))
      else None
    else if |s| > 0 && AllDigits(s) then Some(DigitsValue(s))
    else None
  }

  /** Index of the first `.` in `s`, if any */
  function DotIndex(s: string): (r: Option<nat>)
    ensures r.Some? ==> r.value < |s| && s[r.value] == '.'
    ensures r.Some? ==> forall j :: 0 <= j < r.value ==> s[j] != '.'
    ensures r.None? ==> forall j :: 0 <= j < |s| ==> s[j] != '.'
  {
    if |s| == 0 then None
    else if s[0] == '.' then Some(0)
    else match DotIndex(s[1..])
      case None => None
      case Some(k) => Some(k + 1)
  }

  /** The value of the digits after a decimal point */
  function Fraction(b: string): real
    requires AllDigits(b)
  {
    DigitsValue(b) as real / Pow10(|b|) as real
  }

  /** An unsigned decimal numeral: `a`, `a.`, `.b` or `a.b` with digit runs
      `a` and `b`, not both empty */
  function UnsignedDecimal(s: string): Option<real> {
    match DotIndex(s)
    case None => if |s| > 0 && AllDigits(s) then Some(DigitsValue(s) as real) else None
    case Some(k) =>
      var a, b := s[..k], s[k + 1..];
      if AllDigits(a) && AllDigits(b) && |a| + |b| > 0 then
        Some(DigitsValue(a) as real + Fraction(b))
      else None
  }

  /** Python's `float(text)` on signed decimal numerals */
  function ParseFloat(s: string): Option<real> {
    if |s| > 0 && (s[0] == '+' || s[0] == '-') then
      match UnsignedDecimal(s[1..])
      case None => None
      case Some(v) => Some(if s[0] == '-' then -v else v)
    else UnsignedDecimal(s)
  }

  /** The numerals the program dialog expects: digits, optionally followed by
      a point and more digits */
  predicate PlainDecimal(s: string) {
    match DotIndex(s)
    case None => |s| > 0 && AllDigits(s)
    case Some(k) => 0 < k < |s| - 1 && AllDigits(s[..k]) && AllDigits(s[k + 1..])
  }

  /** The value of a plain decimal numeral */
  function PlainDecimalValue(s: string): real
    requires PlainDecimal(s)
  {
    match DotIndex(s)
    case None => DigitsValue(s) as real
    case Some(k) => DigitsValue(s[..k]) as real + Fraction(s[k + 1..])
  }

  /** A digit string is read by `int()` as the number its digits spell */
  lemma ParseIntOfDigits(s: string)
    requires |s| > 0 && AllDigits(s)
    ensures ParseInt(s) == Some(DigitsValue(s) as int)
  {
    assert IsDigit(s[0]);
  }

  /** A minus sign before a digit string negates its value */
  lemma ParseIntOfNegative(s: string)
    requires |s| > 0 && AllDigits(s)
    ensures ParseInt("-" + s) == Some(-(DigitsValue(s) as int))
  {
    assert ("-" + s)[1..] == s;
  }

  /** `float()` accepts every plain decimal numeral and reads the value the
      numeral spells */
  lemma ParseFloatOfPlainDecimal(s: string)
    requires PlainDecimal(s)
    ensures ParseFloat(s) == Some(PlainDecimalValue(s))
  {
    assert IsDigit(s[0]);
  }

  /** A run of digits is an unsigned decimal numeral */
  lemma UnsignedOfDigits(a: string)
    requires |a| > 0 && AllDigits(a)
    ensures UnsignedDecimal(a).Some?
  {
    forall j | 0 <= j < |a| ensures a[j] != '.' {
      assert IsDigit(a[j]);
    }
    assert DotIndex(a).None?;
  }

  /** Digits, a point and at least one digit form an unsigned decimal
      numeral */
  lemma UnsignedOfPointed(a: string, b: string)
    requires AllDigits(a) && AllDigits(b) && |b| > 0
    ensures UnsignedDecimal(a + "." + b).Some?
  {
    var t := a + "." + b;
    forall i | 0 <= i < |a| ensures t[i] != '.' {
      assert t[i] == a[i] && IsDigit(a[i]);
    }
    assert t[|a|] == '.';
    assert DotIndex(t) == Some(|a|);
    assert t[..|a|] == a && t[|a| + 1..] == b;
  }

  /** Text that starts with neither sign is read by `float` unsigned */
  lemma ParseFloatUnsigned(t: string)
    requires UnsignedDecimal(t).Some?
    ensures ParseFloat(t).Some?
  {
    var k := DotIndex(t);
    assert k.None? ==> IsDigit(t[0]);
    assert k == Some(0) ==> t[0] == '.';
    assert k.Some? && k.value > 0 ==> IsDigit(t[..k.value][0]);
  }

  /** A run of `n` digits ended by a non-digit or the end of the text */
  lemma {:induction false} RunEndOver(s: string, i: nat, n: nat)
    requires i + n <= |s|
    requires forall j :: i <= j < i + n ==> IsDigit(s[j])
    requires i + n == |s| || !IsDigit(s[i + n])
    ensures RunEnd(s, i) == i + n
    decreases n
  {
    if n > 0 {
      RunEndOver(s, i + 1, n - 1);
    }
  }
}
