/** Decimal and hexadecimal text of numbers. */
module Digits {
  import opened Basics
  import opened Int32
  import opened Trimming

  function Pow10(n: nat): (p: nat)
    ensures p > 0
  {
    if n == 0 then 1 else 10 * Pow10(n - 1)
  }

  function DigitChar(d: nat): char
    requires d < 10
  {
    ('0' as int + d) as char
  }

  predicate IsDigit(c: char) { '0' <= c <= '9' }

  /** `String(n)` for a natural number. */
  function Decimal(n: nat): string {
    if n < 10 then [DigitChar(n)] else Decimal(n / 10) + [DigitChar(n % 10)]
  }

  function DecimalValue(s: string): nat {
    if s == "" || !IsDigit(s[|s| - 1]) then 0
    else DecimalValue(s[..|s| - 1]) * 10 + (s[|s| - 1] as int - '0' as int)
  }

  /** `s.padStart(n, "0")` and the `0n` fill of a Python format. */
  function PadStart(s: string, n: nat): string {
    if |s| >= n then s else ['0'] + PadStart(s, n - 1)
  }

  /** The `digits` decimal digits of `code`, from the right. */
  function LastDigits(code: nat, digits: nat): (s: string)
    ensures |s| == digits && forall c :: c in s ==> IsDigit(c)
  {
    if digits == 0 then "" else LastDigits(code / 10, digits - 1) + [DigitChar(code % 10)]
  }

  lemma {:induction false} DecimalIsLastDigits(code: nat, digits: nat)
    requires digits > 0 && code < Pow10(digits)
    ensures PadStart(Decimal(code), digits) == LastDigits(code, digits)
    decreases digits
  {
    if digits == 1 {
      assert Pow10(1) == 10 * Pow10(0);
      assert LastDigits(code / 10, 0) == "";
    } else if code < 10 {
      DecimalIsLastDigits(0, digits - 1);
      PadAppend(Decimal(0), digits - 1, code);
    } else {
      DecimalIsLastDigits(code / 10, digits - 1);
      PadMore(Decimal(code / 10), digits - 1, DigitChar(code % 10));
    }
  }

  lemma {:induction false} PadMore(s: string, n: nat, c: char)
    ensures PadStart(s + [c], n + 1) == PadStart(s, n) + [c]
    decreases n
  {
    if |s| < n {
      PadMore(s, n - 1, c);
    }
  }

  /** Padding "0" to n digits and appending a digit pads that digit to n + 1. */
  lemma {:induction false} PadAppend(zero: string, n: nat, d: nat)
    requires zero == "0" && n > 0 && d < 10
    ensures PadStart(Decimal(d), n + 1) == PadStart(zero, n) + [DigitChar(d)]
  {
    PadMore("", n, DigitChar(d));
    assert "" + [DigitChar(d)] == Decimal(d);
    PadZero(n);
  }

  lemma {:induction false} PadZero(n: nat)
    requires n > 0
    ensures PadStart("0", n) == PadStart("", n)
  {
    if n > 1 {
      PadZero(n - 1);
    } else {
      assert PadStart("", 1) == ['0'] + PadStart("", 0);
    }
  }

  lemma {:induction false} LastDigitsIgnoresMore(code: nat, digits: nat)
    ensures LastDigits(code % Pow10(digits), digits) == LastDigits(code, digits)
  {
    if digits > 0 {
      var p := Pow10(digits - 1);
      DigitRemainder(code, 10, p);
      LastDigitsIgnoresMore(code / 10, digits - 1);
    }
  }

  lemma {:induction false} DigitRemainder(v: nat, b: nat, p: nat)
    requires b > 0 && p > 0
    ensures b * p > 0 && (v % (b * p)) / b == (v / b) % p && (v % (b * p)) % b == v % b
  {
    var h, d := v / b, v % b;
    QuotientNatural(v, b);
    var q, r := h / p, h % p;
    QuotientNatural(h, p);
    assert v == b * h + d && h == p * q + r;
    Regroup(b, p, q, r);
    assert v == (b * p) * q + (b * r + d);
    ProductMonotone(b, r + 1, p);
    RemainderIs(v, b * p, q, b * r + d);
    RemainderIs(b * r + d, b, r, d);
  }

  lemma {:induction false} Regroup(b: nat, p: nat, q: nat, r: nat)
    ensures b * (p * q + r) == (b * p) * q + b * r
  {
  }

  lemma {:induction false} Pow10Step(n: nat)
    ensures Pow10(0) == 1 && Pow10(n + 1) == 10 * Pow10(n)
  {
  }

  lemma {:induction false} LastDigitsValue(code: nat, digits: nat)
    ensures DecimalValue(LastDigits(code, digits)) == code % Pow10(digits)
  {
    if digits > 0 {
      hide Pow10;
      LastDigitsValue(code / 10, digits - 1);
      DigitRemainder(code, 10, Pow10(digits - 1));
      Pow10Step(digits - 1);
      var s := LastDigits(code, digits);
      assert s[..|s| - 1] == LastDigits(code / 10, digits - 1);
    }
  }

  /** `String(code % 10 ** digits).padStart(digits, "0")`. */
  function CodeText(code: nat, digits: nat): string {
    PadStart(Decimal(code % Pow10(digits)), digits)
  }

  /** The text has exactly `digits` decimal digits, those of code mod 10^digits. */
  lemma {:induction false} CodeTextSpec(code: nat, digits: nat)
    requires digits > 0
    ensures CodeText(code, digits) == LastDigits(code, digits)
    ensures |CodeText(code, digits)| == digits && forall c :: c in CodeText(code, digits) ==> IsDigit(c)
    ensures DecimalValue(CodeText(code, digits)) == code % Pow10(digits)
  {
    RemainderBelow(code, Pow10(digits));
    DecimalIsLastDigits(code % Pow10(digits), digits);
    LastDigitsIgnoresMore(code, digits);
    LastDigitsValue(code, digits);
  }

  lemma {:induction false} RemainderBelow(v: nat, p: nat)
    requires p > 0
    ensures 0 <= v % p < p
  {
  }

  /** The text of an integer below 10^21 in magnitude. */
  function IntegerText(k: int): string {
    if k < 0 then "-" + Decimal(-k) else Decimal(k)
  }

  lemma {:induction false} DecimalSpec(n: nat)
    ensures Decimal(n) != "" && forall c :: c in Decimal(n) ==> IsDigit(c)
    ensures DecimalValue(Decimal(n)) == n
  {
    if n >= 10 {
      DecimalSpec(n / 10);
      var s := Decimal(n);
      assert s[..|s| - 1] == Decimal(n / 10);
    } else {
      var s := Decimal(n);
      assert s[..0] == "" && DecimalValue("") == 0;
    }
  }

  lemma {:induction false} IntegerTextSpec(k: int, l: int)
    ensures forall i :: 0 <= i < |IntegerText(k)| ==> IntegerText(k)[i] == '-' || IsDigit(IntegerText(k)[i])
    ensures IntegerText(k) == IntegerText(l) ==> k == l
  {
    var a: nat, b: nat := if k < 0 then -k else k, if l < 0 then -l else l;
    DecimalSpec(a);
    DecimalSpec(b);
    var s, t := IntegerText(k), IntegerText(l);
    assert k < 0 ==> s[0] == '-' && s[1..] == Decimal(a);
    assert l < 0 ==> t[0] == '-' && t[1..] == Decimal(b);
    assert Decimal(a)[0] in Decimal(a) && Decimal(b)[0] in Decimal(b);
    forall i | 0 <= i < |s|
      ensures s[i] == '-' || IsDigit(s[i])
    {
      assert s[i] in s && (s[i] == '-' || s[i] in Decimal(a));
    }
  }

  lemma {:induction false} IntegerTextIs(k: int)
    ensures k == 0 ==> IntegerText(k) == "0"
    ensures k > 0 ==> IntegerText(k) == Decimal(k)
    ensures k < 0 ==> IntegerText(k) == "-" + Decimal(-k)
  {
  }

  // ---------------------------------------------------------------- hexadecimal digests

  function HexChar(d: nat): char
    requires d < 16
  {
    if d < 10 then DigitChar(d) else ('a' as int + (d - 10)) as char
  }

  /** The text `crypto.hmac(..., "hex")` returns. */
  function Hex(bytes: seq<Byte>): (s: string)
    ensures |s| == 2 * |bytes|
  {
    if bytes == [] then "" else [HexChar(bytes[0] / 16), HexChar(bytes[0] % 16)] + Hex(bytes[1..])
  }

  predicate IsHex(c: char) { IsDigit(c) || 'a' <= c <= 'f' || 'A' <= c <= 'F' }

  function HexDigit(c: char): (d: nat)
    requires IsHex(c)
    ensures d < 16
  {
    if IsDigit(c) then c as int - '0' as int
    else if c <= 'F' then c as int - 'A' as int + 10
    else c as int - 'a' as int + 10
  }

  lemma {:induction false} HexAt(bytes: seq<Byte>, i: nat)
    requires i < |bytes|
    ensures var s := Hex(bytes);
      && IsHex(s[2 * i]) && IsHex(s[2 * i + 1])
      && ('0' <= s[2 * i] <= '9' || 'a' <= s[2 * i] <= 'f') && ('0' <= s[2 * i + 1] <= '9' || 'a' <= s[2 * i + 1] <= 'f')
      && HexDigit(s[2 * i]) * 16 + HexDigit(s[2 * i + 1]) == bytes[i]
  {
    if i > 0 {
      HexAt(bytes[1..], i - 1);
    }
  }

  // ---------------------------------------------------------------- parseInt

  /** The longest prefix of hexadecimal digits. */
  function HexPrefix(s: string): (p: string)
    ensures p <= s && forall i :: 0 <= i < |p| ==> IsHex(p[i])
    ensures |p| < |s| ==> !IsHex(s[|p|])
  {
    if s == "" || !IsHex(s[0]) then "" else [s[0]] + HexPrefix(s[1..])
  }

  function HexValue(s: string): nat
    requires forall i :: 0 <= i < |s| ==> IsHex(s[i])
  {
    if s == "" then 0 else HexValue(s[..|s| - 1]) * 16 + HexDigit(s[|s| - 1])
  }

  /** `parseInt(s, 16)`, after section 19.2.5 of ECMA-262; None is NaN. */
  function ParseHex(s: string): Option<int> {
    var t := TrimStart(IsJsBlank, s);
    var u := if t != "" && t[0] in {'+', '-'} then t[1..] else t;
    var v := if |u| >= 2 && u[0] == '0' && u[1] in {'x', 'X'} then u[2..] else u;
    var digits := HexPrefix(v);
    var n: int := HexValue(digits);
    if digits == "" then None else Some(if t[0] == '-' then -n else n)
  }

  lemma {:induction false} ParseHexPair(s: string)
    requires |s| == 2 && IsHex(s[0]) && IsHex(s[1])
    ensures ParseHex(s) == Some(HexDigit(s[0]) * 16 + HexDigit(s[1]))
  {
    assert TrimStart(IsJsBlank, s) == s;
    assert s[1..] == [s[1]] && s[1..][1..] == "";
    assert HexPrefix(s[1..]) == [s[1]] + HexPrefix("");
    assert HexPrefix(s) == [s[0]] + HexPrefix(s[1..]) == s;
    assert s[..1] == [s[0]] && s[..1][..0] == "";
    assert HexValue(s[..1]) == HexDigit(s[0]);
  }

  /** The value of each digit, in either case. */
  lemma {:induction false} HexDigitValues(c: char)
    ensures IsHex(c) <==> '0' <= c <= '9' || 'a' <= c <= 'f' || 'A' <= c <= 'F'
    ensures '0' <= c <= '9' ==> HexDigit(c) == c as int - 48
    ensures 'a' <= c <= 'f' ==> HexDigit(c) == c as int - 87
    ensures 'A' <= c <= 'F' ==> HexDigit(c) == c as int - 55
  {
  }

  /** Leading blanks do not matter. */
  lemma {:induction false} ParseBlank(b: char, s: string)
    requires IsJsBlank(b)
    ensures ParseHex([b] + s) == ParseHex(s)
  {
    hide HexPrefix, HexValue;
    assert ([b] + s)[1..] == s;
  }

  /** One sign may come before the digits. */
  lemma {:induction false} ParseSign(s: string)
    requires s != "" && IsHex(s[0])
    ensures ParseHex(['+'] + s) == ParseHex(s)
    ensures ParseHex(['-'] + s) == if ParseHex(s) == None then None else Some(-ParseHex(s).value)
  {
    hide HexPrefix, HexValue;
    assert (['+'] + s)[1..] == s && (['-'] + s)[1..] == s;
    assert TrimStart(IsJsBlank, s) == s && TrimStart(IsJsBlank, ['+'] + s) == ['+'] + s;
    assert TrimStart(IsJsBlank, ['-'] + s) == ['-'] + s;
  }

  /** What follows the digits is ignored. */
  lemma {:induction false} ParseDigits(digits: string, rest: string)
    requires digits != "" && forall i :: 0 <= i < |digits| ==> IsHex(digits[i])
    requires rest != "" ==> !IsHex(rest[0])
    requires !(digits == "0" && rest != "" && rest[0] in {'x', 'X'})
    ensures ParseHex(digits + rest) == Some(HexValue(digits))
  {
    hide HexValue;
    PrefixIs(digits, rest);
    var s := digits + rest;
    assert s[0] == digits[0] && TrimStart(IsJsBlank, s) == s;
    assert |digits| >= 2 ==> IsHex(s[1]);
    assert |digits| == 1 && rest != "" ==> s[1] == rest[0];
    assert digits[0] == '0' && |digits| == 1 ==> digits == "0";
  }

  lemma {:induction false} PrefixIs(digits: string, rest: string)
    requires forall i :: 0 <= i < |digits| ==> IsHex(digits[i])
    requires rest != "" ==> !IsHex(rest[0])
    ensures HexPrefix(digits + rest) == digits
  {
    if digits == "" {
      assert digits + rest == rest;
    } else {
      assert (digits + rest)[1..] == digits[1..] + rest;
      PrefixIs(digits[1..], rest);
    }
  }

  /** "0x" or "0X" is skipped; without a digit behind it, as without any digit, the result is NaN. */
  lemma {:induction false} ParsePrefix(x: char, s: string)
    requires x in {'x', 'X'}
    ensures ParseHex(['0', x] + s) == if s == "" || !IsHex(s[0]) then None else Some(HexValue(HexPrefix(s)))
    ensures s == "" || (!IsHex(s[0]) && !IsJsBlank(s[0]) && s[0] !in {'+', '-'}) ==> ParseHex(s) == None
  {
    hide HexValue;
    var t := ['0', x] + s;
    assert t[2..] == s && TrimStart(IsJsBlank, t) == t;
  }
}
