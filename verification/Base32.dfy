/**
 `base32ToBytes` (simulacion/auth_load_simulation.js): a loop that repacks 5-bit groups into
 bytes on a 32-bit accumulator whose upper bits are never cleared, measured against the
 encoding of section 6 of RFC 4648.

 Bit sequences have the most significant bit first.
 */
module Base32 {
  import opened Basics
  import opened Int32

  const ALPHABET: string := "ABCDEFGHIJKLMNOPQRSTUVWXYZ234567"

  // ---------------------------------------------------------------- bits

  /** The low `n` bits of `v`. */
  function Low(v: nat, n: nat): (bits: seq<bool>)
    ensures |bits| == n
  {
    if n == 0 then [] else Low(v / 2, n - 1) + [v % 2 == 1]
  }

  /** The number a bit sequence spells. */
  function Number(bits: seq<bool>): (v: nat)
    ensures v < Pow2(|bits|)
  {
    if bits == [] then 0 else 2 * Number(bits[..|bits| - 1]) + (if bits[|bits| - 1] then 1 else 0)
  }

  lemma {:induction false} NumberLow(bits: seq<bool>)
    ensures Low(Number(bits), |bits|) == bits
  {
    if bits != [] {
      NumberLow(bits[..|bits| - 1]);
      assert bits == bits[..|bits| - 1] + [bits[|bits| - 1]];
    }
  }

  lemma {:induction false} LowNumber(v: nat, n: nat)
    requires v < Pow2(n)
    ensures Number(Low(v, n)) == v
  {
    if n > 0 {
      LowNumber(v / 2, n - 1);
      assert Low(v, n)[..n - 1] == Low(v / 2, n - 1);
    }
  }

  /** Wrapping at 2^k does not reach the low n bits when n <= k. */
  lemma {:induction false} LowWraps(v: nat, k: nat, n: nat)
    requires n <= k
    ensures Low(v % Pow2(k), n) == Low(v, n)
    decreases n
  {
    if n > 0 {
      HalfRemainder(v, Pow2(k - 1));
      LowWraps(v / 2, k - 1, n - 1);
    }
  }

  lemma {:induction false} LowSum(v: nat, i: nat, n: nat, k: nat)
    requires i < Pow2(k)
    ensures Low(v * Pow2(k) + i, n + k) == Low(v, n) + Low(i, k)
    decreases k
  {
    if k > 0 {
      var h := v * Pow2(k - 1) + i / 2;
      HalfSum(v, Pow2(k - 1), i);
      LowSum(v, i / 2, n, k - 1);
      assert Low(2 * h + i % 2, n + k) == Low(h, n + k - 1) + [i % 2 == 1];
    } else {
      assert Low(v, n) + [] == Low(v, n);
    }
  }

  lemma {:induction false} HalfSum(v: nat, p: nat, i: nat)
    ensures v * (2 * p) + i == 2 * (v * p + i / 2) + i % 2
  {
  }

  lemma {:induction false} LowSplit(v: nat, a: nat, b: nat)
    ensures Low(v, a + b) == Low(ShiftRight(v, b), a) + Low(v, b)
    decreases b
  {
    if b > 0 {
      LowSplit(v / 2, a, b - 1);
    }
  }

  function BytesBits(bytes: seq<Byte>): (bits: seq<bool>)
    ensures |bits| == 8 * |bytes|
  {
    if bytes == [] then [] else Low(bytes[0], 8) + BytesBits(bytes[1..])
  }

  /** The bytes a bit sequence spells; trailing bits that fill no byte are dropped. */
  function BytesOf(bits: seq<bool>): (bytes: seq<Byte>)
    ensures |bytes| == |bits| / 8
  {
    if |bits| < 8 then [] else [ByteOf(bits[..8])] + BytesOf(bits[8..])
  }

  function ByteOf(bits: seq<bool>): Byte
    requires |bits| == 8
  {
    assert Pow2(8) == 256;
    Number(bits)
  }

  lemma {:induction false} BytesOfBits(bytes: seq<Byte>, tail: seq<bool>)
    requires |tail| < 8
    ensures BytesOf(BytesBits(bytes) + tail) == bytes
  {
    if bytes != [] {
      var bits := BytesBits(bytes) + tail;
      assert bits[..8] == Low(bytes[0], 8) && bits[8..] == BytesBits(bytes[1..]) + tail;
      assert Pow2(8) == 256;
      LowNumber(bytes[0], 8);
      BytesOfBits(bytes[1..], tail);
    }
  }

  lemma {:induction false} BytesBitsAppend(bytes: seq<Byte>, b: Byte)
    ensures BytesBits(bytes + [b]) == BytesBits(bytes) + Low(b, 8)
  {
    if bytes == [] {
      assert bytes + [b] == [b];
    } else {
      assert (bytes + [b])[1..] == bytes[1..] + [b];
      BytesBitsAppend(bytes[1..], b);
    }
  }

  // ---------------------------------------------------------------- symbols and cleaning

  function IndexIn(s: string, c: char): (k: int)
    ensures -1 <= k < |s|
    ensures k == -1 <==> c !in s
    ensures k != -1 ==> s[k] == c && c !in s[..k]
  {
    if s == "" then -1
    else if s[0] == c then 0
    else var k := IndexIn(s[1..], c); if k == -1 then -1 else k + 1
  }

  /** `alphabet.indexOf(c)`. */
  function IndexOf(c: char): (k: int)
    ensures -1 <= k < 32
  {
    IndexIn(ALPHABET, c)
  }

  /** The class `[A-Z2-7]`. */
  predicate IsSymbol(c: char) {
    'A' <= c <= 'Z' || '2' <= c <= '7'
  }

  function StripPadding(s: string): string {
    if s != "" && s[|s| - 1] == '=' then StripPadding(s[..|s| - 1]) else s
  }

  function Upper(c: char): char {
    if 'a' <= c <= 'z' then (c as int - 32) as char else c
  }

  function KeepSymbols(s: string): string {
    if s == "" then "" else (if IsSymbol(Upper(s[0])) then [Upper(s[0])] else "") + KeepSymbols(s[1..])
  }

  function Clean(input: string): string {
    KeepSymbols(StripPadding(input))
  }

  /** The concatenated 5-bit groups of the symbols of `s`. */
  function GroupsBits(s: string): seq<bool> {
    if s == "" then [] else (if IndexOf(s[0]) == -1 then [] else Low(IndexOf(s[0]), 5)) + GroupsBits(s[1..])
  }

  lemma {:induction false} GroupsBitsAppend(s: string, c: char)
    ensures GroupsBits(s + [c]) == GroupsBits(s) + (if IndexOf(c) == -1 then [] else Low(IndexOf(c), 5))
  {
    hide IndexOf;
    if s == "" {
      assert s + [c] == [c];
    } else {
      assert (s + [c])[1..] == s[1..] + [c];
      GroupsBitsAppend(s[1..], c);
    }
  }

  /** The reference decoder: the whole bytes of the concatenated groups. */
  function Decode(s: string): seq<Byte> {
    BytesOf(GroupsBits(s))
  }

  // ---------------------------------------------------------------- the loop

  /** One group enters the accumulator, which wraps at 2^32; its pending bits stay right. */
  lemma {:induction false} ShiftIn(value: nat, bits: nat, idx: nat)
    requires bits < 8 && idx < 32
    ensures var v := BitOr(ShiftLeft(value, 5), idx);
      v < TWO_32 && Low(v, bits + 5) == Low(value, bits) + Low(idx, 5)
  {
    hide BitOr, ShiftLeft, Pow2, Low;
    ShiftInValue(value, idx);
    LowSum(value % 0x800_0000, idx, bits, 5);
    LowWraps(value, 27, bits);
  }

  lemma {:induction false} ShiftInValue(value: nat, idx: nat)
    requires idx < 32
    ensures Pow2(5) == 32 && Pow2(27) == 0x800_0000
    ensures BitOr(ShiftLeft(value, 5), idx) == (value % 0x800_0000) * 32 + idx < TWO_32
  {
    assert Pow2(5) == 32 && Pow2(10) == 1024 && Pow2(20) == 0x10_0000 && Pow2(27) == 0x800_0000;
    WrapShift(value);
    OrIsSum(value % 0x800_0000, 5, idx);
  }

  lemma {:induction false} WrapShift(value: nat)
    ensures (value * 32) % TWO_32 == (value % 0x800_0000) * 32
  {
  }

  /** The byte that leaves is the oldest 8 of the pending bits. */
  lemma {:induction false} ShiftOut(value: nat, bits: nat)
    requires 8 <= bits
    ensures var b := BitAnd(ShiftRight(value, bits - 8), 0xff);
      b < 256 && Low(b, 8) + Low(value, bits - 8) == Low(value, bits)
  {
    assert Pow2(8) == 256;
    var w := ShiftRight(value, bits - 8);
    AndIsRemainder(w, 8);
    LowWraps(w, 8, 8);
    LowSplit(value, 8, bits - 8);
  }

  /** The whole bytes are settled, fewer than 8 bits are pending. */
  lemma {:induction false} WholeBytes(out: seq<Byte>, pending: seq<bool>, s: string)
    requires |pending| < 8 && BytesBits(out) + pending == GroupsBits(s)
    ensures out == Decode(s)
  {
    BytesOfBits(out, pending);
  }

  lemma {:induction false} LoopStart(s: string)
    ensures BytesBits([]) + Low(0, 0) == GroupsBits(s[..0])
  {
  }

  /** `base32ToBytes`. */
  method Base32ToBytes(input: string) returns (out: seq<Byte>)
    ensures out == Decode(Clean(input))
  {
    hide IndexOf, Clean, Low, BytesBits, GroupsBits, BitOr, BitAnd, ShiftLeft, ShiftRight;
    var clean := Clean(input);
    LoopStart(clean);
    var bits: nat, value: nat := 0, 0;
    out := [];
    var i := 0;
    while i < |clean|
      invariant 0 <= i <= |clean|
      invariant bits < 8 && value < TWO_32
      invariant BytesBits(out) + Low(value, bits) == GroupsBits(clean[..i])
    {
      var idx := IndexOf(clean[i]);
      assert clean[..i + 1] == clean[..i] + [clean[i]];
      GroupsBitsAppend(clean[..i], clean[i]);
      i := i + 1;
      if idx == -1 {
        continue;
      }
      ShiftIn(value, bits, idx);
      value := BitOr(ShiftLeft(value, 5), idx);
      bits := bits + 5;
      if bits >= 8 {
        ShiftOut(value, bits);
        var byte := BitAnd(ShiftRight(value, bits - 8), 0xff);
        BytesBitsAppend(out, byte);
        assert BytesBits(out) + Low(byte, 8) + Low(value, bits - 8) == BytesBits(out) + Low(value, bits);
        out := out + [byte];
        bits := bits - 8;
      }
    }
    assert clean[..i] == clean;
    WholeBytes(out, Low(value, bits), clean);
  }
}
