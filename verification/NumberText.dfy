/** JavaScript numbers, `Math.trunc`, and the text of whole numbers. */
module NumberText {
  import opened Digits
  import opened Int32

  /** A JavaScript number, as section 6.1.6.1.20 of ECMA-262 prints it: `Finite` is
      digits * 10^exponent with the fewest digits that identify the number. */
  datatype Number = NaN | Infinite(negative: bool) | Finite(negative: bool, digits: nat, exponent: int)

  /** The fewest digits do not end in 0; there is one zero (`-0` prints as 0). */
  predicate IsNumber(x: Number) {
    x.Finite? ==> if x.digits == 0 then x == ZERO else x.digits % 10 != 0
  }

  const ZERO: Number := Finite(false, 0, 0)

  predicate IsWhole(x: Number) {
    IsNumber(x) && (x.Finite? ==> x.exponent >= 0)
  }

  /** The number of magnitude `k`. */
  function WholeOf(negative: bool, k: nat, exponent: nat): (x: Number)
    ensures IsWhole(x)
    ensures x.Finite? && x.exponent >= 0 && (k == 0 ==> x == ZERO)
    ensures k > 0 ==> x.negative == negative && x.digits * Pow10(x.exponent) == k * Pow10(exponent)
    decreases k
  {
    if k == 0 then ZERO
    else if k % 10 != 0 then Finite(negative, k, exponent)
    else
      TenTimes(k / 10, exponent);
      WholeOf(negative, k / 10, exponent + 1)
  }

  lemma {:induction false} TenTimes(k: nat, exponent: nat)
    ensures k * 10 * Pow10(exponent) == k * Pow10(exponent + 1)
  {
    Pow10Step(exponent);
  }

  /** `Math.trunc`. */
  function Trunc(x: Number): (y: Number)
    requires IsNumber(x)
    ensures IsWhole(y)
  {
    if x.Finite? && x.exponent < 0 then
      QuotientNatural(x.digits, Pow10(-x.exponent));
      WholeOf(x.negative, x.digits / Pow10(-x.exponent), 0)
    else x
  }

  function Zeros(n: nat): (s: string)
    ensures |s| == n
  {
    seq(n, _ => '0')
  }

  /** `Number::toString` of a whole number. */
  function WholeText(x: Number): string
    requires IsWhole(x)
  {
    match x
    case NaN => "NaN"
    case Infinite(negative) => Sign(negative) + "Infinity"
    case Finite(negative, digits, exponent) =>
      Sign(negative) + Unsigned(digits, exponent)
  }

  /** With an exponent from 10^21 on. */
  function Unsigned(digits: nat, exponent: nat): string {
    var d := Decimal(digits);
    DecimalSpec(digits);
    if |d| + exponent <= 21 then d + Zeros(exponent) else Mantissa(d) + "e+" + Decimal(|d| + exponent - 1)
  }

  /** The part before the exponent: a point after the first digit. */
  function Mantissa(d: string): string
    requires d != ""
  {
    [d[0]] + Fraction(d[1..])
  }

  function Sign(negative: bool): string {
    if negative then "-" else ""
  }

  function Fraction(rest: string): string {
    if rest == "" then "" else "." + rest
  }

  // ---------------------------------------------------------------- different numbers, different texts

  lemma {:induction false} DecimalEnds(n: nat)
    ensures Decimal(n) != "" && Decimal(n)[|Decimal(n)| - 1] == DigitChar(n % 10)
  {
  }

  /** The leading digit is not 0. */
  lemma {:induction false} DecimalLeads(n: nat) returns (lead: nat)
    requires n > 0
    ensures 0 < lead < 10 && Decimal(n) != "" && Decimal(n)[0] == DigitChar(lead)
  {
    if n < 10 {
      lead := n;
    } else {
      lead := DecimalLeads(n / 10);
    }
  }

  lemma {:induction false} DecimalInjective(m: nat, n: nat)
    requires Decimal(m) == Decimal(n)
    ensures m == n
  {
    DecimalSpec(m);
    DecimalSpec(n);
  }

  predicate AllDigits(s: string) {
    forall i :: 0 <= i < |s| ==> IsDigit(s[i])
  }

  lemma {:induction false} DecimalDigits(n: nat)
    ensures Decimal(n) != "" && AllDigits(Decimal(n))
  {
    DecimalSpec(n);
    assert forall i :: 0 <= i < |Decimal(n)| ==> Decimal(n)[i] in Decimal(n);
  }

  /** Trailing zeros can be told from digits that do not end in 0. */
  lemma {:induction false} PlainInjective(m: nat, e: nat, n: nat, f: nat)
    requires m % 10 != 0 || (m == 0 && e == 0)
    requires n % 10 != 0 || (n == 0 && f == 0)
    requires Decimal(m) + Zeros(e) == Decimal(n) + Zeros(f)
    ensures m == n && e == f
  {
    assert |Decimal(0)| == 1;
    hide Decimal;
    DecimalEnds(m);
    DecimalEnds(n);
    var s := Decimal(m) + Zeros(e);
    assert s == Decimal(n) + Zeros(f);
    assert s[|Decimal(m)| - 1] == DigitChar(m % 10) && s[|Decimal(n)| - 1] == DigitChar(n % 10);
    assert e == f;
    assert s[..|Decimal(m)|] == Decimal(m) && s[..|Decimal(n)|] == Decimal(n);
    DecimalInjective(m, n);
  }

  predicate NoE(s: string) {
    forall i :: 0 <= i < |s| ==> s[i] != 'e'
  }

  lemma {:induction false} MantissaInjective(c: string, d: string)
    requires c != "" && d != "" && Mantissa(c) == Mantissa(d)
    ensures c == d
  {
    var u, v := Mantissa(c), Mantissa(d);
    assert u[0] == c[0] && v[0] == d[0];
    assert |c| > 1 ==> u[2..] == c[1..];
    assert |d| > 1 ==> v[2..] == d[1..];
    assert c == [c[0]] + c[1..] && d == [d[0]] + d[1..];
  }

  lemma {:induction false} MantissaNoE(d: string)
    requires d != "" && AllDigits(d)
    ensures NoE(Mantissa(d))
  {
  }

  lemma {:induction false} SplitAtE(a: string, x: string, b: string, y: string)
    requires NoE(a) && NoE(b) && a + "e+" + x == b + "e+" + y
    ensures a == b && x == y
  {
    var s := a + "e+" + x;
    assert s == b + "e+" + y;
    assert s[|a|] == 'e' && s[|b|] == 'e';
    assert forall i :: 0 <= i < |a| ==> s[i] == a[i];
    assert forall i :: 0 <= i < |b| ==> s[i] == b[i];
    assert |a| == |b|;
    assert a == s[..|a|] && b == s[..|a|] && x == s[|a| + 2..] && y == s[|a| + 2..];
  }

  /** An `e` shows which of the two forms a text has. */
  lemma {:induction false} FormShows(digits: nat, exponent: nat)
    ensures NoE(Unsigned(digits, exponent)) <==> |Decimal(digits)| + exponent <= 21
  {
    hide Decimal, Mantissa;
    DecimalDigits(digits);
    if |Decimal(digits)| + exponent > 21 {
      var m := Mantissa(Decimal(digits));
      assert Unsigned(digits, exponent)[|m|] == 'e';
    }
  }

  lemma {:induction false} UnsignedInjective(m: nat, e: nat, n: nat, f: nat)
    requires m % 10 != 0 || (m == 0 && e == 0)
    requires n % 10 != 0 || (n == 0 && f == 0)
    requires Unsigned(m, e) == Unsigned(n, f)
    ensures m == n && e == f
  {
    hide Decimal, Mantissa;
    var c, d := Decimal(m), Decimal(n);
    DecimalDigits(m);
    DecimalDigits(n);
    MantissaNoE(c);
    MantissaNoE(d);
    FormShows(m, e);
    FormShows(n, f);
    if |c| + e <= 21 {
      PlainInjective(m, e, n, f);
    } else {
      SplitAtE(Mantissa(c), Decimal(|c| + e - 1), Mantissa(d), Decimal(|d| + f - 1));
      MantissaInjective(c, d);
      DecimalInjective(m, n);
      DecimalInjective(|c| + e - 1, |d| + f - 1);
    }
  }

  lemma {:induction false} UnsignedHead(digits: nat, exponent: nat)
    ensures Unsigned(digits, exponent) != "" && IsDigit(Unsigned(digits, exponent)[0])
  {
    DecimalDigits(digits);
  }

  /** The first unit shows the sign, the first after the sign the kind of number. */
  lemma {:induction false} SignedHead(x: Number)
    requires IsWhole(x)
    ensures var t := WholeText(x);
      && t != "" && (t[0] == '-' <==> !x.NaN? && x.negative)
      && var h := if t[0] == '-' then 1 else 0;
         && h < |t| && (t[h] == 'N' <==> x.NaN?) && (t[h] == 'I' <==> x.Infinite?)
  {
    hide Unsigned;
    if x.Finite? {
      UnsignedHead(x.digits, x.exponent);
      assert WholeText(x)[|Sign(x.negative)|] == Unsigned(x.digits, x.exponent)[0];
    }
  }

  /** Different whole numbers print different texts. */
  lemma {:induction false} WholeTextInjective(x: Number, y: Number)
    requires IsWhole(x) && IsWhole(y) && WholeText(x) == WholeText(y)
    ensures x == y
  {
    hide Unsigned;
    SignedHead(x);
    SignedHead(y);
    if x.Finite? && y.Finite? {
      var u, v := Unsigned(x.digits, x.exponent), Unsigned(y.digits, y.exponent);
      assert WholeText(x)[|Sign(x.negative)|..] == u && WholeText(y)[|Sign(y.negative)|..] == v;
      UnsignedInjective(x.digits, x.exponent, y.digits, y.exponent);
    }
  }

  // ---------------------------------------------------------------- the values of ECMA-262

  /** Truncation drops what is behind the point and keeps the sign. */
  lemma {:induction false} TruncIs(x: Number)
    requires IsNumber(x)
    ensures x.Finite? && x.exponent < 0 ==>
      var k, y := x.digits / Pow10(-x.exponent), Trunc(x);
      && y.Finite? && y.exponent >= 0 && y.digits * Pow10(y.exponent) == k && (k > 0 ==> y.negative == x.negative)
    ensures !(x.Finite? && x.exponent < 0) ==> Trunc(x) == x
  {
    if x.Finite? && x.exponent < 0 {
      QuotientNatural(x.digits, Pow10(-x.exponent));
      assert Pow10(0) == 1;
    }
  }

  /** Up to 21 digits are written out; more have a point after the first digit and an exponent. */
  lemma {:induction false} WholeTexts(x: Number)
    requires IsWhole(x)
    ensures x == NaN ==> WholeText(x) == "NaN"
    ensures x.Finite? && x.digits == 0 ==> WholeText(x) == "0"
    ensures x.Infinite? ==> WholeText(x) == if x.negative then "-Infinity" else "Infinity"
    ensures x.Finite? ==>
      var d, n := Decimal(x.digits), |Decimal(x.digits)| + x.exponent;
      var sign := if x.negative then "-" else "";
      && (n <= 21 ==> |WholeText(x)| == |sign| + n && sign + d <= WholeText(x)
                      && forall i :: |sign| + |d| <= i < |WholeText(x)| ==> WholeText(x)[i] == '0')
      && (n > 21 && |d| == 1 ==> WholeText(x) == sign + (d + "e+" + Decimal(n - 1)))
      && (n > 21 && |d| > 1 ==> WholeText(x) == sign + (d[..1] + "." + d[1..] + "e+" + Decimal(n - 1)))
  {
    assert Decimal(0) == "0";
    hide Decimal;
    if x.Finite? {
      var d, n := Decimal(x.digits), |Decimal(x.digits)| + x.exponent;
      if n > 21 && |d| == 1 {
        assert Mantissa(d) == d;
      } else if n > 21 && |d| > 1 {
        assert Mantissa(d) == d[..1] + "." + d[1..];
      }
    }
  }
}
