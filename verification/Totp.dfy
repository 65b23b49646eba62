/**
 One-time passwords after RFC 6238: `totp` of the load simulation (JavaScript) and
 `_totp_code` of the lifecycle simulator (Python).  HMAC-SHA-1 is any function with
 20-byte results.
 */
module Totp {
  import opened Basics
  import opened Int32
  import opened Base32
  import opened Digits

  type Hmac = (seq<Byte>, seq<Byte>) -> seq<Byte>

  // ---------------------------------------------------------------- numbers as bytes and digits

  /** `v` modulo 256^n in `n` bytes, most significant first. */
  function BigEndian(v: nat, n: nat): (bytes: seq<Byte>)
    ensures |bytes| == n
  {
    if n == 0 then [] else BigEndian(v / 256, n - 1) + [v % 256]
  }

  function BytesNumber(bytes: seq<Byte>): nat {
    if bytes == [] then 0 else BytesNumber(bytes[..|bytes| - 1]) * 256 + bytes[|bytes| - 1]
  }

  // ---------------------------------------------------------------- the reference

  /** Section 5.3 of RFC 4226: the last 31 bits of the four bytes at the offset that the low
      four bits of the last byte give. */
  function DynamicTruncation(digest: seq<Byte>): (code: nat)
    requires |digest| == 20
    ensures code < 0x8000_0000
  {
    var offset := digest[19] % 16;
    BytesNumber(digest[offset..offset + 4]) % 0x8000_0000
  }

  // ---------------------------------------------------------------- truncation with bit operators

  /** The expression both programs use. */
  function TruncatedBits(d: seq<Byte>, offset: nat): nat
    requires offset + 3 < |d|
  {
    FourBytesOr(d[offset], d[offset + 1], d[offset + 2], d[offset + 3])
  }

  function FourBytesOr(a: nat, b: nat, c: nat, e: nat): nat {
    BitOr(BitOr(BitOr(ShiftLeft(BitAnd(a, 0x7f), 24), ShiftLeft(BitAnd(b, 0xff), 16)),
                ShiftLeft(BitAnd(c, 0xff), 8)),
          BitAnd(e, 0xff))
  }

  lemma {:induction false} Powers()
    ensures Pow2(4) == 16 && Pow2(7) == 128 && Pow2(8) == 256 && Pow2(16) == 0x1_0000 && Pow2(24) == 0x100_0000
  {
  }

  function Weighted(a: nat, b: nat, c: nat, e: nat): nat {
    a * 0x100_0000 + b * 0x1_0000 + c * 0x100 + e
  }

  /** Shifting a byte into place loses nothing. */
  lemma {:induction false} ShiftIsProduct(x: nat, n: nat, p: nat)
    requires p == Pow2(n) && x * p < TWO_32
    ensures ShiftLeft(x, n) == x * p
  {
  }

  lemma {:induction false} ShiftBytes(a: nat, b: nat, c: nat)
    requires a < 128 && b < 256 && c < 256
    ensures ShiftLeft(a, 24) == a * 0x100_0000 && ShiftLeft(b, 16) == b * 0x1_0000 && ShiftLeft(c, 8) == c * 0x100
  {
    Powers();
    ShiftIsProduct(a, 24, 0x100_0000);
    ShiftIsProduct(b, 16, 0x1_0000);
    ShiftIsProduct(c, 8, 0x100);
  }

  lemma {:induction false} OrBytes(a: nat, b: nat, c: nat, e: nat)
    requires a < 128 && b < 256 && c < 256 && e < 256
    ensures BitOr(BitOr(BitOr(a * 0x100_0000, b * 0x1_0000), c * 0x100), e) == Weighted(a, b, c, e)
  {
    hide BitOr, Pow2;
    Powers();
    OrIsSum(a, 24, b * 0x1_0000);
    OrIsSum(a * 256 + b, 16, c * 256);
    OrIsSum((a * 256 + b) * 256 + c, 8, e);
  }

  lemma {:induction false} MaskBytes(a: nat, b: nat)
    requires b < 256
    ensures BitAnd(a, 0x7f) == a % 128 && BitAnd(b, 0xff) == b
  {
    hide BitAnd, Pow2;
    Powers();
    AndIsRemainder(a, 7);
    AndIsRemainder(b, 8);
  }

  lemma {:induction false} FourBytesOrIsNumber(a: nat, b: nat, c: nat, e: nat)
    requires b < 256 && c < 256 && e < 256
    ensures FourBytesOr(a, b, c, e) == Weighted(a % 128, b, c, e)
  {
    hide BitOr, BitAnd, ShiftLeft, Weighted;
    MaskBytes(a, b);
    MaskBytes(a, c);
    MaskBytes(a, e);
    ShiftBytes(a % 128, b, c);
    OrBytes(a % 128, b, c, e);
  }

  lemma {:induction false} FourBytes(s: seq<Byte>)
    requires |s| == 4
    ensures BytesNumber(s) % 0x8000_0000 == Weighted(s[0] as nat % 128, s[1], s[2], s[3])
  {
    var a: nat, b: nat, c: nat, e: nat := s[0], s[1], s[2], s[3];
    assert BytesNumber(s[..3][..2][..1]) == a;
    assert BytesNumber(s[..3][..2]) == a * 256 + b;
    assert BytesNumber(s[..3]) == (a * 256 + b) * 256 + c;
    DropTopBit(a, b, c, e);
  }

  lemma {:induction false} DropTopBit(a: nat, b: nat, c: nat, e: nat)
    requires b < 256 && c < 256 && e < 256
    ensures (((a * 256 + b) * 256 + c) * 256 + e) % 0x8000_0000 == Weighted(a % 128, b, c, e)
  {
  }

  /** Both programs truncate as the RFC says; the index stays inside the digest. */
  lemma {:induction false} TruncationIsDynamic(d: seq<Byte>)
    requires |d| == 20
    ensures BitAnd(d[19], 0x0f) + 3 < 20
    ensures TruncatedBits(d, BitAnd(d[19], 0x0f)) == DynamicTruncation(d)
  {
    hide BitAnd, BytesNumber, FourBytesOr, Pow2, Weighted;
    Powers();
    AndIsRemainder(d[19], 4);
    var offset := d[19] % 16;
    FourBytesOrIsNumber(d[offset], d[offset + 1], d[offset + 2], d[offset + 3]);
    FourBytes(d[offset..offset + 4]);
  }

  // ---------------------------------------------------------------- time steps

  /** `Math.floor(Date.now() / 1000 / step)`. */
  function CounterJs(nowMs: nat, step: nat): int
    requires step > 0
  {
    (nowMs as real / 1000.0 / step as real).Floor
  }

  /** `int(epoch // interval)` with `epoch = int(time.time())` at the same instant. */
  function CounterPy(nowMs: nat, interval: nat): nat
    requires interval > 0
  {
    assert nowMs / 1000 / interval >= 0 by { QuotientNatural(nowMs / 1000, interval); }
    nowMs / 1000 / interval
  }

  lemma {:induction false} RealProductMonotone(a: real, b: real, d: real)
    requires d > 0.0 && a * d < b * d
    ensures a < b
  {
  }

  lemma {:induction false} QuotientFloor(y: real, d: real, q: int)
    requires d > 0.0
    requires q as real * d <= y < q as real * d + d
    ensures (y / d).Floor == q
  {
    var x, lo := y / d, q as real;
    assert x * d == y;
    if x < lo {
      assert (lo - x) * d > 0.0;
      assert (lo - x) * d == lo * d - x * d;
    }
    assert (lo + 1.0) * d == lo * d + d;
    RealProductMonotone(x, lo + 1.0, d);
  }

  lemma {:induction false} RealOfProduct(a: nat, b: nat)
    ensures (a * b) as real == a as real * b as real
  {
  }

  lemma {:induction false} CountersAgree(nowMs: nat, step: nat)
    requires step > 0
    ensures CounterJs(nowMs, step) == CounterPy(nowMs, step)
  {
    var s: nat, r: nat := nowMs / 1000, nowMs % 1000;
    QuotientNatural(s, step);
    var q: nat, t: nat := s / step, s % step;
    var p: nat := q * step;
    RealOfProduct(q, step);
    assert s == p + t && t + 1 <= step;
    var y := nowMs as real / 1000.0;
    assert y == s as real + r as real / 1000.0;
    assert p as real <= y < p as real + step as real;
    QuotientFloor(y, step as real, q);
  }

  // ---------------------------------------------------------------- the two programs

  /** The message of the JavaScript version: the upper half is always zero. */
  function MessageJs(counter: nat): seq<Byte> {
    BigEndian(0, 4) + BigEndian(counter % TWO_32, 4)
  }

  lemma {:induction false} BigEndianSplit(v: nat)
    ensures BigEndian(v, 8) == BigEndian(v / TWO_32, 4) + BigEndian(v % TWO_32, 4)
  {
    BigEndianStep(v, 4);
    BigEndianStep(v / 256, 4);
    BigEndianLow(v, 4);
    Powers();
    assert Pow2(28) == 0x1000_0000;
    assert Pow2(32) == TWO_32;
  }

  lemma {:induction false} BigEndianStep(v: nat, n: nat)
    ensures BigEndian(v, n + 4) == BigEndian(v / TWO_32, n) + BigEndian(v, 4)
  {
    assert BigEndian(v, n + 4) == BigEndian(v / 256, n + 3) + [v % 256];
    assert BigEndian(v / 256, n + 3) == BigEndian(v / 256 / 256, n + 2) + [(v / 256) % 256];
    assert BigEndian(v / 256 / 256, n + 2) == BigEndian(v / 256 / 256 / 256, n + 1) + [(v / 256 / 256) % 256];
    assert BigEndian(v / 256 / 256 / 256, n + 1) == BigEndian(v / 256 / 256 / 256 / 256, n) + [(v / 256 / 256 / 256) % 256];
    assert v / 256 / 256 / 256 / 256 == v / TWO_32;
    FourOf(v);
  }

  lemma {:induction false} FourOf(v: nat)
    ensures BigEndian(v, 4) == [(v / 256 / 256 / 256) % 256, (v / 256 / 256) % 256, (v / 256) % 256, v % 256]
  {
    var v1, v2, v3, v4 := v / 256, v / 256 / 256, v / 256 / 256 / 256, v / 256 / 256 / 256 / 256;
    assert BigEndian(v4, 0) == [];
    assert BigEndian(v3, 1) == BigEndian(v4, 0) + [v3 % 256];
    assert BigEndian(v2, 2) == BigEndian(v3, 1) + [v2 % 256];
    assert BigEndian(v1, 3) == BigEndian(v2, 2) + [v1 % 256];
    assert BigEndian(v, 4) == BigEndian(v1, 3) + [v % 256];
  }

  lemma {:induction false} Pow2Eight(k: nat)
    ensures Pow2(k + 8) == 256 * Pow2(k)
  {
    assert Pow2(k + 2) == 2 * Pow2(k + 1) && Pow2(k + 4) == 2 * Pow2(k + 3) && Pow2(k + 6) == 2 * Pow2(k + 5);
    assert Pow2(k + 8) == 2 * Pow2(k + 7) && Pow2(k + 1) == 2 * Pow2(k) && Pow2(k + 3) == 2 * Pow2(k + 2);
  }

  lemma {:induction false} BigEndianLow(v: nat, n: nat)
    ensures BigEndian(v % Pow2(8 * n), n) == BigEndian(v, n)
  {
    if n > 0 {
      var p := Pow2(8 * n - 8);
      Pow2Eight(8 * n - 8);
      DigitRemainder(v, 256, p);
      BigEndianLow(v / 256, n - 1);
    }
  }

  lemma {:induction false} BigEndianZero(v: nat)
    requires v < TWO_32
    ensures BigEndian(v, 4) == BigEndian(0, 4) <==> v == 0
  {
    FourOf(v);
    FourOf(0);
  }

  /** Both programs hash the same eight bytes exactly when the step counter fits 32 bits
      (or is beyond 64 bits and agrees modulo 2^64, where Python raises instead). */
  lemma {:induction false} MessagesAgree(counter: nat)
    requires counter < TWO_32 * TWO_32
    ensures MessageJs(counter) == BigEndian(counter, 8) <==> counter < TWO_32
  {
    BigEndianSplit(counter);
    var high := counter / TWO_32;
    BigEndianZero(high);
    assert MessageJs(counter)[..4] == BigEndian(0, 4) && MessageJs(counter)[4..] == BigEndian(counter % TWO_32, 4);
    assert BigEndian(counter, 8)[..4] == BigEndian(high, 4);
  }

  /** `_totp_code` after its key is decoded; `to_bytes` raises beyond eight bytes. */
  function CodePy(hmac: Hmac, key: seq<Byte>, nowMs: nat, digits: nat, interval: nat): Option<string>
    requires interval > 0
    requires forall k, m :: |hmac(k, m)| == 20
  {
    var counter := CounterPy(nowMs, interval);
    if counter >= TWO_32 * TWO_32 then None
    else
      var digest := hmac(key, BigEndian(counter, 8));
      TruncationIsDynamic(digest);
      Some(CodeText(TruncatedBits(digest, BitAnd(digest[19], 0x0f)), digits))
  }

  /** `hex.slice(from, from + 2)`. */
  function Pair(hex: string, from: nat): string
    requires from <= |hex|
  {
    hex[from..if from + 2 <= |hex| then from + 2 else |hex|]
  }

  /** `hexToBytes`: what `parseInt` makes of every two characters, NaN included. */
  method HexToBytes(hex: string) returns (out: seq<Option<int>>)
    ensures |out| == (|hex| + 1) / 2
    ensures forall k :: 0 <= k < |out| ==> out[k] == ParseHex(Pair(hex, 2 * k))
  {
    hide ParseHex;
    out := [];
    var i := 0;
    while i < |hex|
      invariant 0 <= i <= |hex| + 1 && i % 2 == 0 && |out| == i / 2
      invariant forall k :: 0 <= k < |out| ==> 2 * k <= |hex| && out[k] == ParseHex(Pair(hex, 2 * k))
    {
      out := out + [ParseHex(Pair(hex, i))];
      i := i + 2;
    }
  }

  /** On the text of a digest it reads back the digest. */
  lemma {:induction false} DigestReadsBack(bytes: seq<Byte>, k: nat)
    requires k < |bytes|
    ensures ParseHex(Pair(Hex(bytes), 2 * k)) == Some(bytes[k] as int)
  {
    hide ParseHex, HexDigit, Hex;
    HexAt(bytes, k);
    ParseHexPair(Pair(Hex(bytes), 2 * k));
  }

  // ---------------------------------------------------------------- the JavaScript program

  /** `view.setUint32(offset, v)`. */
  method SetUint32(view: array<Byte>, offset: nat, v: nat)
    requires offset + 4 <= view.Length
    modifies view
    ensures view[..] == old(view[..offset]) + BigEndian(v % TWO_32, 4) + old(view[offset + 4..])
  {
    var u := v % TWO_32;
    FourOf(u);
    view[offset] := (u / 256 / 256 / 256) % 256;
    view[offset + 1] := (u / 256 / 256) % 256;
    view[offset + 2] := (u / 256) % 256;
    view[offset + 3] := u % 256;
  }

  /** `totp`, at the instant `nowMs`.  For any counter below 2^32 it is the code of RFC 6238,
      which is also what the Python program computes from the same key. */
  method TotpJs(secret: string, nowMs: nat, stepSeconds: nat, digits: nat, hmac: Hmac) returns (otp: string)
    requires forall k, m :: |hmac(k, m)| == 20
    ensures var step := if stepSeconds == 0 then 30 else stepSeconds;
      var otpDigits := if digits == 0 then 6 else digits;
      var counter := CounterPy(nowMs, step);
      var key := Decode(Clean(secret));
      && otp == LastDigits(DynamicTruncation(hmac(key, MessageJs(counter))), otpDigits)
      && (counter < TWO_32 ==>
            && otp == LastDigits(DynamicTruncation(hmac(key, BigEndian(counter, 8))), otpDigits)
            && CodePy(hmac, key, nowMs, otpDigits, step) == Some(otp))
  {
    hide Decode, Clean, LastDigits, DynamicTruncation, TruncatedBits, CodeText, Hex, BigEndian, BitAnd, CounterJs,
         CounterPy, ParseHex, Pair;
    var step := if stepSeconds == 0 then 30 else stepSeconds;
    var otpDigits := if digits == 0 then 6 else digits;
    var keyBytes := Base32ToBytes(secret);
    CountersAgree(nowMs, step);
    var counter := CounterJs(nowMs, step);
    var view := new Byte[8](_ => 0);
    SetUint32(view, 0, 0);
    assert view[..4] == view[..][..4];
    SetUint32(view, 4, counter);
    var msg := view[..];
    assert msg == MessageJs(counter);
    if counter < TWO_32 {
      MessagesAgree(counter);
    }
    ghost var digest := hmac(keyBytes, msg);
    var hmacHex := Hex(hmac(keyBytes, msg));
    var parsed := HexToBytes(hmacHex);
    forall k | 0 <= k < |parsed|
      ensures parsed[k] == Some(digest[k] as int)
    {
      DigestReadsBack(digest, k);
    }
    var hmacBytes: seq<Byte> := seq(|parsed|, k requires 0 <= k < |parsed| => parsed[k].value);
    assert hmacBytes == digest;
    TruncationIsDynamic(digest);
    var offset := BitAnd(hmacBytes[|hmacBytes| - 1], 0x0f);
    var code := TruncatedBits(hmacBytes, offset);
    CodeTextSpec(code, otpDigits);
    otp := CodeText(code, otpDigits);
  }

  // ---------------------------------------------------------------- the values of the RFCs

  /** The example of section 5.4 of RFC 4226. */
  lemma {:induction false} TruncationExample(d: seq<Byte>)
    requires |d| == 20 && d[19] == 0x5a && d[10] == 0x50 && d[11] == 0xef && d[12] == 0x7f && d[13] == 0x19
    ensures DynamicTruncation(d) == 0x50ef7f19 && LastDigits(DynamicTruncation(d), 6) == "872921"
  {
    var s := d[10..14];
    assert s[..3][..2][..1][..0] == [];
    assert BytesNumber(s[..3][..2][..1]) == 0x50 && BytesNumber(s[..3][..2]) == 0x50ef && BytesNumber(s[..3]) == 0x50ef7f;
    assert LastDigits(1357, 0) == "" && LastDigits(13578, 1) == "8" && LastDigits(135787, 2) == "87";
    assert LastDigits(1357872, 3) == "872" && LastDigits(13578729, 4) == "8729" && LastDigits(135787292, 5) == "87292";
  }

  /** The first rows of appendix B of RFC 6238: 59 s is step 1, 1111111109 s is step 0x23523EC. */
  lemma {:induction false} CounterExample()
    ensures CounterPy(59_999, 30) == 1 && CounterJs(59_999, 30) == 1
    ensures CounterPy(1_111_111_109_000, 30) == 0x23523EC && CounterJs(1_111_111_109_000, 30) == 0x23523EC
  {
    hide CounterJs;
    CountersAgree(59_999, 30);
    CountersAgree(1_111_111_109_000, 30);
  }

  lemma {:induction false} MessageExample()
    ensures BigEndian(1, 8) == [0, 0, 0, 0, 0, 0, 0, 1]
  {
    hide BigEndian;
    BigEndianSplit(1);
    FourOf(0);
    FourOf(1);
  }

  /** The Python program raises from step 2^64 on, and otherwise computes the code of the RFC. */
  lemma {:induction false} CodePyIs(hmac: Hmac, key: seq<Byte>, nowMs: nat, digits: nat, interval: nat)
    requires interval > 0 && digits > 0
    requires forall k, m :: |hmac(k, m)| == 20
    ensures var counter := CounterPy(nowMs, interval);
      CodePy(hmac, key, nowMs, digits, interval)
      == if counter < 0x1_0000_0000_0000_0000 then Some(LastDigits(DynamicTruncation(hmac(key, BigEndian(counter, 8))), digits))
         else None
  {
    hide CounterPy, TruncatedBits, BitAnd, DynamicTruncation, LastDigits, CodeText, BigEndian;
    var digest := hmac(key, BigEndian(CounterPy(nowMs, interval), 8));
    TruncationIsDynamic(digest);
    CodeTextSpec(TruncatedBits(digest, BitAnd(digest[19], 0x0f)), digits);
  }
}
