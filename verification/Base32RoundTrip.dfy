/** The loop of module Base32 against the encoding of section 6 of RFC 4648. */
module Base32RoundTrip {
  import opened Basics
  import opened Int32
  import opened Base32

  function Zeros(n: nat): (bits: seq<bool>)
    ensures |bits| == n
  {
    seq(n, _ => false)
  }

  /** Five bits at a time, each group named by its symbol. */
  function Symbols(bits: seq<bool>): (s: string)
    requires |bits| % 5 == 0
    ensures |s| == |bits| / 5
  {
    if bits == [] then "" else [SymbolOf(bits[..5])] + Symbols(bits[5..])
  }

  function SymbolOf(bits: seq<bool>): char
    requires |bits| == 5
  {
    assert Pow2(5) == 32;
    ALPHABET[Number(bits)]
  }

  /** Zero bits on the right complete the last group. */
  function Completed(bits: seq<bool>): (r: seq<bool>)
    ensures |r| % 5 == 0 && |r| < |bits| + 5 && bits <= r
  {
    bits + Zeros((5 - |bits| % 5) % 5)
  }

  function EncodeUnpadded(bytes: seq<Byte>): string {
    Symbols(Completed(BytesBits(bytes)))
  }

  /** With `=` up to a multiple of eight characters. */
  function Encode(bytes: seq<Byte>): string {
    var s := EncodeUnpadded(bytes);
    s + Padding((8 - |s| % 8) % 8)
  }

  function Padding(n: nat): (p: string)
    ensures |p| == n
  {
    seq(n, _ => '=')
  }

  /** The five ways in which a last quantum can end. */
  lemma {:induction false} PaddingLength(bytes: seq<Byte>)
    ensures var pad := |Encode(bytes)| - |EncodeUnpadded(bytes)|;
      && |Encode(bytes)| % 8 == 0
      && pad == match |bytes| % 5 case 0 => 0 case 1 => 6 case 2 => 4 case 3 => 3 case _ => 1
  {
    hide BytesBits, Symbols;
    var q, r := |bytes| / 5, |bytes| % 5;
    assert |BytesBits(bytes)| == 40 * q + 8 * r;
    var n := |EncodeUnpadded(bytes)|;
    assert n == 8 * q + match r case 0 => 0 case 1 => 2 case 2 => 4 case 3 => 5 case _ => 7;
  }

  // ---------------------------------------------------------------- the alphabet

  lemma {:induction false} SymbolAt(k: nat)
    requires k < 32
    ensures ALPHABET[k] as int == if k < 26 then 'A' as int + k else '2' as int + (k - 26)
  {
  }

  lemma {:induction false} IndexOfSymbol(k: nat)
    requires k < 32
    ensures IndexOf(ALPHABET[k]) == k && IsSymbol(ALPHABET[k])
  {
    var j := IndexOf(ALPHABET[k]);
    assert ALPHABET[k] in ALPHABET;
    SymbolAt(k);
    SymbolAt(j);
  }

  lemma {:induction false} SymbolHasIndex(c: char)
    requires IsSymbol(c)
    ensures IndexOf(c) != -1 && ALPHABET[IndexOf(c)] == c
  {
  }

  predicate AllSymbols(s: string) {
    forall i :: 0 <= i < |s| ==> IsSymbol(s[i])
  }

  lemma {:induction false} SymbolsSpec(bits: seq<bool>)
    requires |bits| % 5 == 0
    ensures AllSymbols(Symbols(bits))
    ensures GroupsBits(Symbols(bits)) == bits
  {
    hide IndexOf, IsSymbol;
    if bits != [] {
      var k := Number(bits[..5]);
      assert Pow2(5) == 32;
      IndexOfSymbol(k);
      NumberLow(bits[..5]);
      SymbolsSpec(bits[5..]);
      assert Symbols(bits)[1..] == Symbols(bits[5..]);
      assert bits == bits[..5] + bits[5..];
    }
  }

  // ---------------------------------------------------------------- cleaning

  lemma {:induction false} KeepAll(s: string)
    requires AllSymbols(s)
    ensures KeepSymbols(s) == s && KeepSymbols(LowerCase(s)) == s
  {
    if s != "" {
      assert IsSymbol(s[0]);
      assert Upper(s[0]) == s[0] && Upper(Lower(s[0])) == s[0];
      KeepAll(s[1..]);
      assert LowerCase(s)[0] == Lower(s[0]) && LowerCase(s)[1..] == LowerCase(s[1..]);
    }
  }

  function Lower(c: char): char {
    if 'A' <= c <= 'Z' then (c as int + 32) as char else c
  }

  function LowerCase(s: string): (t: string)
    ensures |t| == |s|
  {
    if s == "" then "" else [Lower(s[0])] + LowerCase(s[1..])
  }

  lemma {:induction false} StripAll(s: string, n: nat)
    requires s != "" ==> s[|s| - 1] != '='
    ensures StripPadding(s + Padding(n)) == s
  {
    if n == 0 {
      assert s + Padding(0) == s;
    } else {
      var t := s + Padding(n);
      assert t[|t| - 1] == '=' && t[..|t| - 1] == s + Padding(n - 1);
      StripAll(s, n - 1);
    }
  }

  lemma {:induction false} LowerLast(s: string)
    requires s != ""
    ensures LowerCase(s)[|s| - 1] == Lower(s[|s| - 1])
  {
    if |s| > 1 {
      LowerLast(s[1..]);
    }
  }

  lemma {:induction false} CleanText(s: string, n: nat)
    requires AllSymbols(s)
    ensures Clean(s + Padding(n)) == s && Clean(LowerCase(s) + Padding(n)) == s
  {
    if s != "" {
      assert IsSymbol(s[|s| - 1]);
      LowerLast(s);
    }
    StripAll(s, n);
    StripAll(LowerCase(s), n);
    KeepAll(s);
  }

  // ---------------------------------------------------------------- the round trips

  /** What `base32ToBytes` returns for the encoding of any byte sequence is that sequence,
      whatever number of `=` follows the symbols and in either letter case. */
  lemma {:induction false} DecodeEncode(bytes: seq<Byte>, n: nat)
    ensures Decode(Clean(EncodeUnpadded(bytes) + Padding(n))) == bytes
    ensures Decode(Clean(LowerCase(EncodeUnpadded(bytes)) + Padding(n))) == bytes
    ensures Decode(Clean(Encode(bytes))) == bytes
  {
    var bits := BytesBits(bytes);
    SymbolsSpec(Completed(bits));
    CleanText(EncodeUnpadded(bytes), n);
    CleanText(EncodeUnpadded(bytes), (8 - |EncodeUnpadded(bytes)| % 8) % 8);
    BytesOfBits(bytes, Completed(bits)[|bits|..]);
    assert Completed(bits) == bits + Completed(bits)[|bits|..];
  }

  lemma {:induction false} GroupsLength(s: string)
    requires AllSymbols(s)
    ensures |GroupsBits(s)| == 5 * |s|
  {
    hide IndexOf, IsSymbol;
    if s != "" {
      assert IsSymbol(s[0]);
      SymbolHasIndex(s[0]);
      assert forall i :: 0 <= i < |s[1..]| ==> s[1..][i] == s[i + 1];
      GroupsLength(s[1..]);
    }
  }

  lemma {:induction false} BitsOfBytesOf(bits: seq<bool>)
    ensures BytesBits(BytesOf(bits)) == bits[..8 * (|bits| / 8)]
  {
    hide Low, Number;
    if |bits| >= 8 {
      NumberLow(bits[..8]);
      BitsOfBytesOf(bits[8..]);
      assert bits[..8 * (|bits| / 8)] == bits[..8] + bits[8..][..8 * (|bits[8..]| / 8)];
    }
  }

  /** For n symbols the result is the first floor(5n/8) bytes of the concatenated groups. */
  lemma {:induction false} DecodeIsPrefix(s: string)
    requires AllSymbols(s)
    ensures |Decode(s)| == 5 * |s| / 8
    ensures BytesBits(Decode(s)) == GroupsBits(s)[..8 * |Decode(s)|]
  {
    GroupsLength(s);
    BitsOfBytesOf(GroupsBits(s));
  }

  /** The bits of `s` that fill no byte. */
  function Leftover(s: string): seq<bool> {
    Remainder(GroupsBits(s))
  }

  function Remainder(bits: seq<bool>): seq<bool> {
    bits[8 * (|bits| / 8)..]
  }

  lemma {:induction false} SymbolOfGroup(c: char)
    requires IsSymbol(c)
    ensures IndexOf(c) != -1 && SymbolOf(Low(IndexOf(c), 5)) == c
  {
    hide Low;
    SymbolHasIndex(c);
    assert Pow2(5) == 32;
    LowNumber(IndexOf(c), 5);
  }

  lemma {:induction false} GroupsDetermine(s: string)
    requires AllSymbols(s)
    ensures |GroupsBits(s)| % 5 == 0 && Symbols(GroupsBits(s)) == s
  {
    hide IndexOf, IsSymbol, Low, SymbolOf;
    GroupsLength(s);
    if s != "" {
      assert IsSymbol(s[0]);
      SymbolOfGroup(s[0]);
      assert forall i :: 0 <= i < |s[1..]| ==> s[1..][i] == s[i + 1];
      GroupsDetermine(s[1..]);
      var bits := GroupsBits(s);
      assert bits[..5] == Low(IndexOf(s[0]), 5) && bits[5..] == GroupsBits(s[1..]);
    }
  }

  lemma {:induction false} CompletedIs(whole: seq<bool>, left: seq<bool>)
    requires (|whole| + |left|) % 5 == 0
    ensures Completed(whole) == whole + left <==> |left| < 5 && left == Zeros(|left|)
  {
    var z := Zeros((5 - |whole| % 5) % 5);
    assert Completed(whole) == whole + z;
    if |left| < 5 && left == Zeros(|left|) {
      assert |z| == |left|;
    }
    if whole + z == whole + left {
      assert (whole + z)[|whole|..] == z && (whole + left)[|whole|..] == left;
    }
  }

  /** Decoding loses nothing exactly when the leftover is shorter than a group and all zero. */
  lemma {:induction false} EncodeDecode(s: string)
    requires AllSymbols(s)
    ensures EncodeUnpadded(Decode(s)) == s <==> |Leftover(s)| < 5 && Leftover(s) == Zeros(|Leftover(s)|)
  {
    hide GroupsBits, Symbols, Completed, BytesOf, BytesBits, Zeros;
    var bits := GroupsBits(s);
    GroupsDetermine(s);
    BitsOfBytesOf(bits);
    var whole := bits[..8 * (|bits| / 8)];
    assert bits == whole + Leftover(s);
    SymbolsSpec(Completed(whole));
    CompletedIs(whole, Leftover(s));
  }

  // ---------------------------------------------------------------- cleaning, and the values of RFC 4648

  lemma {:induction false} KeepCons(c: char, s: string)
    ensures KeepSymbols([c] + s) == (if IsSymbol(Upper(c)) then [Upper(c)] else "") + KeepSymbols(s)
  {
    assert ([c] + s)[1..] == s;
  }

  lemma {:induction false} KeepConcat(s: string, t: string)
    ensures KeepSymbols(s + t) == KeepSymbols(s) + KeepSymbols(t)
  {
    hide IsSymbol, Upper, KeepSymbols;
    if s == "" {
      assert s + t == t;
      KeepNone();
    } else {
      var u := s[1..];
      assert s == [s[0]] + u && s + t == [s[0]] + (u + t);
      KeepCons(s[0], u);
      KeepCons(s[0], u + t);
      KeepConcat(u, t);
    }
  }

  lemma {:induction false} KeepNone()
    ensures KeepSymbols("") == ""
  {
  }

  /** Padding signs are no symbols, so stripping them first changes nothing. */
  lemma {:induction false} CleanIsKeep(s: string)
    ensures Clean(s) == KeepSymbols(s)
  {
    if s != "" && s[|s| - 1] == '=' {
      CleanIsKeep(s[..|s| - 1]);
      assert s == s[..|s| - 1] + "=";
      KeepConcat(s[..|s| - 1], "=");
      assert "="[1..] == "" && KeepSymbols("=") == "";
    }
  }

  /** Separators anywhere in a secret are dropped: whatever is no letter and no digit from 2 to 7.
      Letters count in either case. */
  lemma {:induction false} SeparatorsDropped(s: string, c: char, t: string)
    ensures !('A' <= c <= 'Z' || 'a' <= c <= 'z' || '2' <= c <= '7') ==> Clean(s + [c] + t) == Clean(s + t)
    ensures 'A' <= c <= 'Z' || '2' <= c <= '7' ==> Clean(s + [c] + t) == Clean(s) + [c] + Clean(t)
    ensures 'a' <= c <= 'z' ==> Clean(s + [c] + t) == Clean(s) + [(c as int - 32) as char] + Clean(t)
  {
    CleanIsKeep(s);
    CleanIsKeep(t);
    CleanIsKeep(s + t);
    CleanIsKeep(s + [c] + t);
    KeepConcat(s + [c], t);
    KeepConcat(s, [c]);
    KeepConcat(s, t);
    assert [c][1..] == "" && KeepSymbols([c]) == if IsSymbol(Upper(c)) then [Upper(c)] else "";
  }

  /** The alphabet of table 3. */
  lemma {:induction false} AlphabetIs(k: nat)
    requires k < 32
    ensures |ALPHABET| == 32 && ALPHABET[k] as int == if k < 26 then 65 + k else 50 + (k - 26)
  {
    SymbolAt(k);
  }

  lemma {:induction false} LowStep(v: nat, n: nat, bits: seq<bool>)
    requires Low(v / 2, n) == bits
    ensures Low(v, n + 1) == bits + [v % 2 == 1]
  {
  }

  lemma {:induction false} NumberStep(bits: seq<bool>, b: bool, all: seq<bool>)
    requires all == bits + [b]
    ensures Number(all) == 2 * Number(bits) + (if b then 1 else 0)
  {
    assert all[..|bits|] == bits;
  }

  const BITS_OF_F: seq<bool> := [false, true, true, false, false, true, true, false]

  lemma {:induction false} BitsOfF()
    ensures Low(0x66, 8) == BITS_OF_F
  {
    hide Low;
    assert Low(0, 0) == [];
    LowStep(0, 0, []);
    LowStep(1, 1, [false]);
    LowStep(3, 2, [false, true]);
    LowStep(6, 3, [false, true, true]);
    LowStep(12, 4, [false, true, true, false]);
    LowStep(25, 5, [false, true, true, false, false]);
    LowStep(51, 6, [false, true, true, false, false, true]);
    LowStep(0x66, 7, [false, true, true, false, false, true, true]);
  }

  lemma {:induction false} GroupsOfF()
    ensures Number([false, true, true, false, false]) == 12 && Number([true, true, false, false, false]) == 24
  {
    hide Number;
    NumberOfNone();
    NumberStep([], false, [false]);
    NumberStep([false], true, [false, true]);
    NumberStep([false, true], true, [false, true, true]);
    NumberStep([false, true, true], false, [false, true, true, false]);
    NumberStep([false, true, true, false], false, [false, true, true, false, false]);
    NumberStep([], true, [true]);
    NumberStep([true], true, [true, true]);
    NumberStep([true, true], false, [true, true, false]);
    NumberStep([true, true, false], false, [true, true, false, false]);
    NumberStep([true, true, false, false], false, [true, true, false, false, false]);
  }

  lemma {:induction false} NumberOfNone()
    ensures Number([]) == 0
  {
  }

  /** From the test vectors of section 10: the letter f is MY======. */
  lemma {:induction false} OneByteVector()
    ensures Encode([0x66]) == "MY======"
  {
    hide Low, Number;
    var b: Byte := 0x66;
    BitsOfF();
    GroupsOfF();
    assert [b][1..] == [] && BytesBits([]) == [] && BITS_OF_F + [] == BITS_OF_F;
    assert BytesBits([b]) == BITS_OF_F;
    var done := BITS_OF_F + [false, false];
    assert Completed(BITS_OF_F) == done;
    assert done[..5] == [false, true, true, false, false] && done[5..] == [true, true, false, false, false];
    assert done[5..][5..] == [] && done[5..][..5] == done[5..];
    assert Symbols(done[5..]) == "Y" && Symbols(done) == "MY";
    assert Padding(6) == "======";
  }
}
