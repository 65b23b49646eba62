/** Removing blank characters from both ends of a text, for JavaScript and for Python. */
module Trimming {

  function TrimStart(blank: char -> bool, s: string): string {
    if s != "" && blank(s[0]) then TrimStart(blank, s[1..]) else s
  }

  function TrimEnd(blank: char -> bool, s: string): string {
    if s != "" && blank(s[|s| - 1]) then TrimEnd(blank, s[..|s| - 1]) else s
  }

  function Trim(blank: char -> bool, s: string): string {
    TrimEnd(blank, TrimStart(blank, s))
  }

  /** Neither end of `s` is blank. */
  ghost predicate IsTrimmed(blank: char -> bool, s: string) {
    s != "" ==> !blank(s[0]) && !blank(s[|s| - 1])
  }

  /** What `String.prototype.trim` removes: white space and line terminators of ECMA-262. */
  predicate IsJsBlank(c: char) {
    c == ' ' || '\t' <= c <= '\r' || c == '\U{00A0}' || c == '\U{1680}' || '\U{2000}' <= c <= '\U{200A}' ||
    c == '\U{2028}' || c == '\U{2029}' || c == '\U{202F}' || c == '\U{205F}' || c == '\U{3000}' || c == '\U{FEFF}'
  }

  /** What `str.strip` removes: the characters for which `str.isspace` holds. */
  predicate IsPyBlank(c: char) {
    c == ' ' || '\t' <= c <= '\r' || '\U{001C}' <= c <= '\U{001F}' || c == '\U{0085}' || c == '\U{00A0}' ||
    c == '\U{1680}' || '\U{2000}' <= c <= '\U{200A}' || c == '\U{2028}' || c == '\U{2029}' || c == '\U{202F}' ||
    c == '\U{205F}' || c == '\U{3000}'
  }

  lemma {:induction false} TrimEndSpec(blank: char -> bool, s: string)
    ensures var t := TrimEnd(blank, s);
      t <= s && (t != "" ==> !blank(t[|t| - 1]))
  {
    if s != "" && blank(s[|s| - 1]) {
      TrimEndSpec(blank, s[..|s| - 1]);
    }
  }

  lemma {:induction false} TrimStartSpec(blank: char -> bool, s: string)
    ensures var t := TrimStart(blank, s);
      t != "" ==> !blank(t[0])
  {
    if s != "" && blank(s[0]) {
      TrimStartSpec(blank, s[1..]);
    }
  }

  /** The result is trimmed, and a text is its own result exactly when it is trimmed. */
  lemma {:induction false} TrimSpec(blank: char -> bool, s: string)
    ensures IsTrimmed(blank, Trim(blank, s))
    ensures Trim(blank, s) == s <==> IsTrimmed(blank, s)
  {
    TrimStartSpec(blank, s);
    TrimEndSpec(blank, TrimStart(blank, s));
  }

  lemma {:induction false} TrimKeeps(blank: char -> bool, s: string, p: char -> bool)
    requires forall c :: c in s ==> p(c)
    ensures forall c :: c in Trim(blank, s) ==> p(c)
  {
    StartKeeps(blank, s, p);
    TrimEndSpec(blank, TrimStart(blank, s));
  }

  lemma {:induction false} StartKeeps(blank: char -> bool, s: string, p: char -> bool)
    requires forall c :: c in s ==> p(c)
    ensures forall c :: c in TrimStart(blank, s) ==> p(c)
  {
    if s != "" && blank(s[0]) {
      StartKeeps(blank, s[1..], p);
    }
  }

  /** What is removed at the two ends is blank, and what is left is the middle. */
  lemma {:induction false} TrimIsMiddle(blank: char -> bool, s: string) returns (i: nat, j: nat)
    ensures i <= j <= |s| && Trim(blank, s) == s[i..j]
    ensures forall k :: 0 <= k < i || j <= k < |s| ==> blank(s[k])
    ensures i < j ==> !blank(s[i]) && !blank(s[j - 1])
  {
    i := StartBlanks(blank, s);
    var t := TrimStart(blank, s);
    assert t == s[i..];
    TrimEndSpec(blank, t);
    EndBlanks(blank, t);
    j := i + |Trim(blank, s)|;
    assert forall k :: 0 <= k < |t| ==> t[k] == s[i + k];
    TrimSpec(blank, s);
    forall k | j <= k < |s|
      ensures blank(s[k])
    {
      assert t[k - i] == s[k];
    }
  }

  lemma {:induction false} StartBlanks(blank: char -> bool, s: string) returns (i: nat)
    ensures i <= |s| && TrimStart(blank, s) == s[i..] && forall k :: 0 <= k < i ==> blank(s[k])
  {
    if s != "" && blank(s[0]) {
      i := StartBlanks(blank, s[1..]);
      assert s[1..][i..] == s[i + 1..];
      assert forall k :: 0 < k < i + 1 ==> s[k] == s[1..][k - 1];
      i := i + 1;
    } else {
      i := 0;
    }
  }

  lemma {:induction false} EndBlanks(blank: char -> bool, s: string)
    ensures forall k :: |TrimEnd(blank, s)| <= k < |s| ==> blank(s[k])
  {
    if s != "" && blank(s[|s| - 1]) {
      EndBlanks(blank, s[..|s| - 1]);
      TrimEndSpec(blank, s[..|s| - 1]);
    }
  }

  /** The white space and line terminators of ECMA-262, by code point. */
  const JS_BLANKS: set<int> :=
    {0x9, 0xA, 0xB, 0xC, 0xD, 0x20, 0xA0, 0x1680, 0x2000, 0x2001, 0x2002, 0x2003, 0x2004, 0x2005, 0x2006, 0x2007,
     0x2008, 0x2009, 0x200A, 0x2028, 0x2029, 0x202F, 0x205F, 0x3000, 0xFEFF}

  lemma {:induction false} JsBlanksAre(c: char)
    ensures IsJsBlank(c) <==> c as int in JS_BLANKS
  {
  }

  /** The characters for which `str.isspace` holds, by code point: the file, group, record and unit
      separators and the next-line character too, but not the byte order mark. */
  lemma {:induction false} PyBlanksAre(c: char)
    ensures IsPyBlank(c) <==> c as int in JS_BLANKS - {0xFEFF} + {0x1C, 0x1D, 0x1E, 0x1F, 0x85}
  {
  }
}
