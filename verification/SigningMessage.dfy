/** `buildRequestSigningMessage` (frontend/src/services/sync-device-crypto.ts): "ts.nonce.hash". */
module SigningMessage {
  import opened Digits
  import opened Int32
  import opened NumberText

  function Message(ts: string, nonce: string, hash: string): string {
    ts + "." + nonce + "." + hash
  }

  predicate NoDot(s: string) {
    forall i :: 0 <= i < |s| ==> s[i] != '.'
  }

  // ---------------------------------------------------------------- framing

  /** A timestamp without a dot and a hash of known length frame any nonce, dots included. */
  lemma {:induction false} FramingUnique(t: string, n: string, h: string, t': string, n': string, h': string)
    requires NoDot(t) && NoDot(t') && |h| == |h'|
    requires Message(t, n, h) == Message(t', n', h')
    ensures t == t' && n == n' && h == h'
  {
    var m := Message(t, n, h);
    assert m == Message(t', n', h');
    assert m[|t|] == '.' && m[|t'|] == '.';
    assert forall i :: 0 <= i < |t| ==> m[i] == t[i];
    assert forall i :: 0 <= i < |t'| ==> m[i] == t'[i];
    assert |t| == |t'|;
    assert t == m[..|t|] && t' == m[..|t|];
    var cut := |m| - |h|;
    assert h == m[cut..] && h' == m[cut..];
    assert n == m[|t| + 1..cut - 1] && n' == m[|t| + 1..cut - 1];
  }

  /** A timestamp text with a dot shares its messages with another timestamp, whatever the nonce. */
  lemma {:induction false} DotIsAmbiguous(t: string, n: string, h: string) returns (t': string, n': string)
    requires !NoDot(t)
    ensures NoDot(t') && t' != t && Message(t', n', h) == Message(t, n, h)
  {
    var k := 0;
    while t[k] != '.'
      invariant 0 <= k < |t| && forall i :: 0 <= i < k ==> t[i] != '.'
      invariant exists i :: k <= i < |t| && t[i] == '.'
      decreases |t| - k
    {
      k := k + 1;
    }
    t' := t[..k];
    n' := t[k + 1..] + "." + n;
    assert t == t' + "." + t[k + 1..];
    assert Message(t', n', h) == t' + "." + (t[k + 1..] + "." + n) + "." + h;
    assert Message(t, n, h) == (t' + "." + t[k + 1..]) + "." + n + "." + h;
  }

  // ---------------------------------------------------------------- timestamps and hashes

  lemma {:induction false} HexInjective(a: seq<Byte>, b: seq<Byte>)
    requires Hex(a) == Hex(b)
    ensures a == b
  {
    assert |a| == |b|;
    forall i | 0 <= i < |a|
      ensures a[i] == b[i]
    {
      HexAt(a, i);
      HexAt(b, i);
    }
  }

  /** The message of a request, for any JavaScript number as its timestamp. */
  function SigningText(ts: Number, nonce: string, digest: seq<Byte>): string
    requires IsNumber(ts)
  {
    Message(WholeText(Trunc(ts)), nonce, Hex(digest))
  }

  /** Timestamps whose text has a dot: of magnitude 10^21 or more, with two digits or more. */
  predicate IsDotted(x: Number)
    requires IsWhole(x)
  {
    x.Finite? && |Decimal(x.digits)| > 1 && |Decimal(x.digits)| + x.exponent > 21
  }

  /** What follows the dot of such a text. */
  function AfterDot(x: Number): string
    requires IsWhole(x) && IsDotted(x)
  {
    Decimal(x.digits)[1..] + "e+" + Decimal(|Decimal(x.digits)| + x.exponent - 1)
  }

  function BeforeDot(x: Number): string
    requires IsWhole(x) && IsDotted(x)
  {
    Sign(x.negative) + Decimal(x.digits)[..1]
  }

  lemma {:induction false} DottedText(x: Number)
    requires IsWhole(x) && IsDotted(x)
    ensures WholeText(x) == BeforeDot(x) + "." + AfterDot(x)
    ensures NoDot(BeforeDot(x)) && NoDot(AfterDot(x))
  {
    hide Decimal;
    DecimalDigits(x.digits);
    DecimalDigits(|Decimal(x.digits)| + x.exponent - 1);
    var d, e := Decimal(x.digits), Decimal(|Decimal(x.digits)| + x.exponent - 1);
    assert Unsigned(x.digits, x.exponent) == d[..1] + "." + (d[1..] + "e+" + e);
  }

  lemma {:induction false} DotlessText(x: Number)
    requires IsWhole(x) && !IsDotted(x)
    ensures NoDot(WholeText(x))
  {
    hide Decimal;
    if x.Finite? {
      DecimalDigits(x.digits);
      if |Decimal(x.digits)| + x.exponent > 21 {
        DecimalDigits(|Decimal(x.digits)| + x.exponent - 1);
      }
    }
  }

  lemma {:induction false} DotFraming(a: string, x: string, b: string, y: string)
    requires NoDot(a) && NoDot(b) && a + "." + x == b + "." + y
    ensures a == b && x == y
  {
    assert Message(a, x, "") == a + "." + x + "." && Message(b, y, "") == b + "." + y + ".";
    FramingUnique(a, x, "", b, y, "");
  }

  /** A dot in the timestamp moves into the nonce. */
  lemma {:induction false} DottedMessage(x: Number, nonce: string, hash: string)
    requires IsWhole(x) && IsDotted(x)
    ensures Message(WholeText(x), nonce, hash) == Message(BeforeDot(x), AfterDot(x) + "." + nonce, hash)
  {
    hide WholeText, BeforeDot, AfterDot;
    DottedText(x);
    var b, a := BeforeDot(x), AfterDot(x);
    assert (b + "." + a) + "." + nonce + "." + hash == b + "." + (a + "." + nonce) + "." + hash;
  }

  lemma {:induction false} SameTextSameParts(x: Number, n: string, h: string, y: Number, m: string, k: string)
    requires IsWhole(x) && IsWhole(y) && |h| == |k| && IsDotted(x) == IsDotted(y)
    requires Message(WholeText(x), n, h) == Message(WholeText(y), m, k)
    ensures x == y && n == m && h == k
  {
    hide WholeText, BeforeDot, AfterDot, Message;
    if IsDotted(x) {
      DottedText(x);
      DottedText(y);
      DottedMessage(x, n, h);
      DottedMessage(y, m, k);
      FramingUnique(BeforeDot(x), AfterDot(x) + "." + n, h, BeforeDot(y), AfterDot(y) + "." + m, k);
      DotFraming(AfterDot(x), n, AfterDot(y), m);
    } else {
      DotlessText(x);
      DotlessText(y);
      FramingUnique(WholeText(x), n, h, WholeText(y), m, k);
    }
    WholeTextInjective(x, y);
  }

  /** The message determines the whole second, the nonce and the body digest, and nothing else,
      among timestamps whose texts both have no dot or both have one; all of magnitude below
      10^21 have none. */
  lemma {:induction false} MessageDetermines(ts: Number, nonce: string, digest: seq<Byte>,
                                             ts': Number, nonce': string, digest': seq<Byte>)
    requires IsNumber(ts) && IsNumber(ts') && |digest| == |digest'| == 32
    requires IsDotted(Trunc(ts)) == IsDotted(Trunc(ts'))
    ensures SigningText(ts, nonce, digest) == SigningText(ts', nonce', digest')
       <==> Trunc(ts) == Trunc(ts') && nonce == nonce' && digest == digest'
  {
    hide WholeText, Message, Trunc, IsDotted;
    if SigningText(ts, nonce, digest) == SigningText(ts', nonce', digest') {
      SameTextSameParts(Trunc(ts), nonce, Hex(digest), Trunc(ts'), nonce', Hex(digest'));
      HexInjective(digest, digest');
    }
  }

  /** Another timestamp without a dot, and a nonce, with the same message. */
  ghost predicate IsRival(other: Number, nonce': string, ts: Number, nonce: string, digest: seq<Byte>)
    requires IsNumber(ts)
  {
    && IsNumber(other) && !IsDotted(Trunc(other)) && Trunc(other) != Trunc(ts)
    && SigningText(other, nonce', digest) == SigningText(ts, nonce, digest)
  }

  /** A timestamp is confused with another one whose text has no dot exactly when its own has one,
      whatever the nonce and the body. */
  lemma {:induction false} RivalIffDotted(ts: Number, nonce: string, digest: seq<Byte>)
    requires IsNumber(ts) && |digest| == 32
    ensures (exists other, nonce' :: IsRival(other, nonce', ts, nonce, digest)) <==> IsDotted(Trunc(ts))
  {
    var x := Trunc(ts);
    if IsDotted(x) {
      var y := RivalOf(x);
      assert Trunc(y) == y;
      DottedMessage(x, nonce, Hex(digest));
      assert IsRival(y, AfterDot(x) + "." + nonce, ts, nonce, digest);
    } else if other, nonce' :| IsRival(other, nonce', ts, nonce, digest) {
      MessageDetermines(other, nonce', digest, ts, nonce, digest);
    }
  }

  /** Its leading digit alone. */
  lemma {:induction false} RivalOf(x: Number) returns (y: Number)
    requires IsWhole(x) && IsDotted(x)
    ensures IsWhole(y) && y.Finite? && !IsDotted(y) && y != x && WholeText(y) == BeforeDot(x)
  {
    var lead := DecimalLeads(x.digits);
    y := Finite(x.negative, lead, 0);
    assert Decimal(lead) == [DigitChar(lead)] == Decimal(x.digits)[..1];
    assert Decimal(lead) + NumberText.Zeros(0) == Decimal(lead);
  }

  /** What is signed: the truncated timestamp, the nonce and the 64 lower-case hexadecimal digits of
      the digest, with a dot after each of the first two. */
  lemma {:induction false} SigningTextIs(ts: Number, nonce: string, digest: seq<Byte>)
    requires IsNumber(ts) && |digest| == 32
    ensures var t, m := WholeText(Trunc(ts)), SigningText(ts, nonce, digest);
      && |m| == |t| + |nonce| + 66
      && m[..|t|] == t && m[|t|] == '.' && m[|t| + 1..|m| - 65] == nonce && m[|m| - 65] == '.'
      && forall i :: 0 <= i < 32 ==>
           var c, d := m[|m| - 64 + 2 * i], m[|m| - 63 + 2 * i];
           && ('0' <= c <= '9' || 'a' <= c <= 'f') && ('0' <= d <= '9' || 'a' <= d <= 'f')
           && HexDigit(c) * 16 + HexDigit(d) == digest[i]
  {
    hide WholeText, Trunc, Hex, HexDigit;
    var t, m := WholeText(Trunc(ts)), SigningText(ts, nonce, digest);
    forall i | 0 <= i < 32
      ensures m[|m| - 64 + 2 * i] == Hex(digest)[2 * i] && m[|m| - 63 + 2 * i] == Hex(digest)[2 * i + 1]
    {
    }
    forall i | 0 <= i < 32
      ensures IsHex(Hex(digest)[2 * i]) && IsHex(Hex(digest)[2 * i + 1])
      ensures HexDigit(Hex(digest)[2 * i]) * 16 + HexDigit(Hex(digest)[2 * i + 1]) == digest[i]
    {
      HexAt(digest, i);
    }
    forall i | 0 <= i < 32
      ensures var c, d := Hex(digest)[2 * i], Hex(digest)[2 * i + 1];
        ('0' <= c <= '9' || 'a' <= c <= 'f') && ('0' <= d <= '9' || 'a' <= d <= 'f')
    {
      HexAt(digest, i);
    }
  }
}
