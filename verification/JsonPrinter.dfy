/** The printed text determines the value: no two values that differ in meaning share a text. */
module JsonPrinter {
  import opened Basics
  import opened JsonText

  lemma {:induction false} Rest(p: Text, x: Text, q: Text, y: Text)
    requires p + x == q + y && |p| == |q|
    ensures p == q && x == y
  {
    assert p == (p + x)[..|p|] && q == (q + y)[..|q|];
    assert x == (p + x)[|p|..] && y == (q + y)[|q|..];
  }

  // ---------------------------------------------------------------- string literals

  lemma {:induction false} EscapeUnitShape(u: Unit)
    ensures EscapeUnit(u) != []
    ensures EscapeUnit(u)[0] != QUOTE && !IsHigh(EscapeUnit(u)[0])
    ensures EscapeUnit(u)[0] == BACKSLASH || EscapeUnit(u) == [u]
    ensures EscapeUnit(u)[0] == BACKSLASH ==> |EscapeUnit(u)| >= 2
  {
  }

  lemma {:induction false} HexDigitInjective(a: nat, b: nat)
    requires a < 16 && b < 16 && HexDigit(a) == HexDigit(b)
    ensures a == b
  {
  }

  lemma {:induction false} UnicodeEscapeInjective(u: Unit, v: Unit)
    requires UnicodeEscape(u) == UnicodeEscape(v)
    ensures u == v
  {
    assert UnicodeEscape(u)[2] == UnicodeEscape(v)[2] && UnicodeEscape(u)[3] == UnicodeEscape(v)[3];
    assert UnicodeEscape(u)[4] == UnicodeEscape(v)[4] && UnicodeEscape(u)[5] == UnicodeEscape(v)[5];
    HexDigitInjective(u / 4096, v / 4096);
    HexDigitInjective(u / 256 % 16, v / 256 % 16);
    HexDigitInjective(u / 16 % 16, v / 16 % 16);
    HexDigitInjective(u % 16, v % 16);
    Nibbles(u);
    Nibbles(v);
  }

  lemma {:induction false} Nibbles(u: nat)
    ensures u == 4096 * (u / 4096) + 256 * (u / 256 % 16) + 16 * (u / 16 % 16) + u % 16
  {
    var a, b := u / 16, u / 16 / 16;
    assert u / 256 == b && u / 4096 == b / 16;
    assert u == 16 * a + u % 16 && a == 16 * b + a % 16 && b == 16 * (b / 16) + b % 16;
  }

  /** Escapes are prefix-free. */
  lemma {:induction false} EscapeUnitUnique(u: Unit, v: Unit, x: Text, y: Text)
    requires EscapeUnit(u) + x == EscapeUnit(v) + y
    ensures u == v && x == y
  {
    EscapeUnitShape(u);
    EscapeUnitShape(v);
    var p, q := EscapeUnit(u), EscapeUnit(v);
    assert (p + x)[0] == p[0] && (q + y)[0] == q[0];
    if p[0] == BACKSLASH {
      assert (p + x)[1] == p[1] && (q + y)[1] == q[1];
      if p[1] == LETTER_U {
        assert |p| == 6 && |q| == 6;
        assert p == (p + x)[..6] && q == (q + y)[..6];
        UnicodeEscapeInjective(u, v);
      } else {
        assert |p| == 2 && |q| == 2;
      }
    }
    assert u == v;
    assert x == (p + x)[|p|..] && y == (q + y)[|q|..];
  }

  lemma {:induction false} EscapedHead(s: Text, x: Text)
    ensures var w := Escaped(s) + [QUOTE] + x;
      && (w[0] == QUOTE <==> s == [])
      && (IsHigh(w[0]) <==> StartsPair(s))
  {
  }

  lemma {:induction false} PairUnique(s: Text, t: Text, x: Text, y: Text)
    requires StartsPair(s) && StartsPair(t)
    requires Escaped(s) + [QUOTE] + x == Escaped(t) + [QUOTE] + y
    ensures s[..2] == t[..2]
    ensures Escaped(s[2..]) + [QUOTE] + x == Escaped(t[2..]) + [QUOTE] + y
  {
    EscapedPair(s, x);
    EscapedPair(t, y);
    Rest(s[..2], Escaped(s[2..]) + [QUOTE] + x, t[..2], Escaped(t[2..]) + [QUOTE] + y);
  }

  lemma {:induction false} EscapedPair(s: Text, x: Text)
    requires StartsPair(s)
    ensures Escaped(s) + [QUOTE] + x == s[..2] + (Escaped(s[2..]) + [QUOTE] + x)
  {
  }

  lemma {:induction false} UnitUnique(s: Text, t: Text, x: Text, y: Text)
    requires s != [] && t != [] && !StartsPair(s) && !StartsPair(t)
    requires Escaped(s) + [QUOTE] + x == Escaped(t) + [QUOTE] + y
    ensures s[0] == t[0]
    ensures Escaped(s[1..]) + [QUOTE] + x == Escaped(t[1..]) + [QUOTE] + y
  {
    hide EscapeUnit;
    var u, v := Escaped(s[1..]) + [QUOTE] + x, Escaped(t[1..]) + [QUOTE] + y;
    assert Escaped(s) + [QUOTE] + x == EscapeUnit(s[0]) + u;
    assert Escaped(t) + [QUOTE] + y == EscapeUnit(t[0]) + v;
    EscapeUnitUnique(s[0], t[0], u, v);
  }

  /** A string literal's closing quote cannot be mistaken: literals are prefix-free. */
  lemma {:induction false} EscapedUnique(s: Text, t: Text, x: Text, y: Text)
    requires Escaped(s) + [QUOTE] + x == Escaped(t) + [QUOTE] + y
    ensures s == t && x == y
    decreases |s|
  {
    hide Escaped;
    EscapedHead(s, x);
    EscapedHead(t, y);
    if s == [] {
      EscapedNothing(x, y);
    } else if StartsPair(s) {
      PairUnique(s, t, x, y);
      EscapedUnique(s[2..], t[2..], x, y);
      assert s == s[..2] + s[2..] && t == t[..2] + t[2..];
    } else {
      UnitUnique(s, t, x, y);
      EscapedUnique(s[1..], t[1..], x, y);
      assert s == [s[0]] + s[1..] && t == [t[0]] + t[1..];
    }
  }

  lemma {:induction false} EscapedNothing(x: Text, y: Text)
    requires Escaped([]) + [QUOTE] + x == Escaped([]) + [QUOTE] + y
    ensures x == y
  {
    assert (Escaped([]) + [QUOTE] + x)[1..] == x && (Escaped([]) + [QUOTE] + y)[1..] == y;
  }

  lemma {:induction false} QuotedUnique(s: Text, t: Text, x: Text, y: Text)
    requires Quoted(s) + x == Quoted(t) + y
    ensures s == t && x == y
  {
    hide Escaped;
    assert Quoted(s) + x == [QUOTE] + (Escaped(s) + [QUOTE] + x);
    assert Quoted(t) + y == [QUOTE] + (Escaped(t) + [QUOTE] + y);
    Rest([QUOTE], Escaped(s) + [QUOTE] + x, [QUOTE], Escaped(t) + [QUOTE] + y);
    EscapedUnique(s, t, x, y);
  }

  // ---------------------------------------------------------------- numbers

  /** `x` does not continue a number. */
  predicate Ends(x: Text) {
    x == [] || !InNumber(x[0])
  }

  lemma {:induction false} NumberUnique(s: Text, t: Text, x: Text, y: Text)
    requires IsNumberText(s) && IsNumberText(t) && Ends(x) && Ends(y)
    requires s + x == t + y
    ensures s == t && x == y
  {
    var w := s + x;
    assert forall k :: 0 <= k < |s| ==> InNumber(w[k]);
    assert |s| < |w| ==> !InNumber(w[|s|]);
    assert w == t + y;
    assert forall k :: 0 <= k < |t| ==> InNumber(w[k]);
    assert |t| < |w| ==> !InNumber(w[|t|]);
    assert w[..|s|] == s && w[|s|..] == x && w[..|t|] == t && w[|t|..] == y;
  }

  // ---------------------------------------------------------------- values

  /** What the first unit of a value's text says about the value. */
  function Kind(v: Json): nat {
    match v
    case Undefined => 0
    case Null => 0
    case NonFinite => 0
    case Bool(b) => if b then 1 else 2
    case Num(_) => 3
    case Str(_) => 4
    case Arr(_) => 5
    case Obj(_) => 6
  }

  function KindOf(u: Unit): nat {
    if u == 110 then 0 else if u == 116 then 1 else if u == 102 then 2
    else if u == QUOTE then 4 else if u == OPEN_BRACKET then 5 else if u == OPEN_BRACE then 6 else 3
  }

  lemma {:induction false} TextHead(v: Json, x: Text)
    requires WellFormed(v)
    ensures TextOf(v) != [] && (TextOf(v) + x)[0] == TextOf(v)[0]
    ensures KindOf(TextOf(v)[0]) == Kind(v)
    ensures TextOf(v)[0] != CLOSE_BRACKET && TextOf(v)[0] != CLOSE_BRACE && TextOf(v)[0] != COMMA
  {
  }

  lemma {:induction false} Regroup(p: Text, q: Text, x: Text)
    ensures (p + q) + x == p + (q + x)
  {
  }

  /** Texts of values are prefix-free up to the end of a number, and determine the meaning. */
  lemma {:induction false} TextUnique(a: Json, b: Json, x: Text, y: Text)
    requires WellFormed(a) && WellFormed(b) && Ends(x) && Ends(y)
    requires TextOf(a) + x == TextOf(b) + y
    ensures Mean(a) == Mean(b) && x == y
    decreases a, 1
  {
    TextHead(a, x);
    TextHead(b, y);
    assert Kind(a) == Kind(b);
    match a {
      case Num(s) => NumberUnique(s, b.digits, x, y);
      case Str(s) => QuotedUnique(s, b.text, x, y);
      case Arr(items) =>
        Regroup([OPEN_BRACKET], ItemsText(items, true), x);
        Regroup([OPEN_BRACKET], ItemsText(b.items, true), y);
        Rest([OPEN_BRACKET], ItemsText(items, true) + x, [OPEN_BRACKET], ItemsText(b.items, true) + y);
        ItemsUnique(items, b.items, true, x, y);
      case Obj(ms) =>
        Regroup([OPEN_BRACE], MembersText(ms, true), x);
        Regroup([OPEN_BRACE], MembersText(b.members, true), y);
        Rest([OPEN_BRACE], MembersText(ms, true) + x, [OPEN_BRACE], MembersText(b.members, true) + y);
        MembersUnique(ms, b.members, true, x, y);
      case _ =>
        Rest(TextOf(a), x, TextOf(b), y);
    }
  }

  lemma {:induction false} ItemsHead(items: seq<Json>, first: bool, x: Text)
    requires forall i :: 0 <= i < |items| ==> WellFormed(items[i])
    ensures var w := ItemsText(items, first) + x;
      && w != [] && Ends(w) == (items == [] || !first || Kind(items[0]) != 3)
      && (w[0] == CLOSE_BRACKET <==> items == [])
  {
  }

  lemma {:induction false} ItemsUnique(items: seq<Json>, items': seq<Json>, first: bool, x: Text, y: Text)
    requires forall i :: 0 <= i < |items| ==> WellFormed(items[i])
    requires forall i :: 0 <= i < |items'| ==> WellFormed(items'[i])
    requires ItemsText(items, first) + x == ItemsText(items', first) + y
    ensures MeanItems(items) == MeanItems(items') && x == y
    decreases items, 0
  {
    hide TextOf, WellFormed, Mean, Kind;
    ItemsHead(items, first, x);
    ItemsHead(items', first, y);
    if items == [] {
      Rest([CLOSE_BRACKET], x, [CLOSE_BRACKET], y);
    } else {
      var r, r' := ItemsText(items[1..], false), ItemsText(items'[1..], false);
      var t, t' := TextOf(items[0]), TextOf(items'[0]);
      assert ItemsText(items, first) + x == Separator(first) + (t + (r + x));
      assert ItemsText(items', first) + y == Separator(first) + (t' + (r' + y));
      Rest(Separator(first), t + (r + x), Separator(first), t' + (r' + y));
      ItemsHead(items[1..], false, x);
      ItemsHead(items'[1..], false, y);
      TextUnique(items[0], items'[0], r + x, r' + y);
      ItemsUnique(items[1..], items'[1..], false, x, y);
    }
  }

  lemma {:induction false} MembersHead(ms: seq<Member>, first: bool, x: Text)
    requires ms == [] || ms[0].value != Undefined
    ensures var w := MembersText(ms, first) + x;
      w[0] == CLOSE_BRACE <==> ms == []
  {
  }

  lemma {:induction false} MemberSplit(ms: seq<Member>, first: bool, x: Text)
    requires ms != [] && ms[0].value != Undefined
    ensures MembersText(ms, first) + x
         == Separator(first) + (Quoted(ms[0].key) + ([COLON] + (TextOf(ms[0].value) + (MembersText(ms[1..], false) + x))))
  {
    hide Quoted, TextOf;
  }

  lemma {:induction false} AfterMember(ms: seq<Member>, x: Text)
    ensures Ends(MembersText(ms, false) + x)
    decreases ms
  {
    if ms != [] && ms[0].value == Undefined {
      AfterMember(ms[1..], x);
    }
  }

  lemma {:induction false} MembersUnique(ms: seq<Member>, ms': seq<Member>, first: bool, x: Text, y: Text)
    requires forall i :: 0 <= i < |ms| ==> WellFormed(ms[i].value)
    requires forall i :: 0 <= i < |ms'| ==> WellFormed(ms'[i].value)
    requires MembersText(ms, first) + x == MembersText(ms', first) + y
    ensures MeanMembers(ms) == MeanMembers(ms') && x == y
    decreases ms, 0, ms'
  {
    hide TextOf, Quoted, WellFormed, Mean;
    if ms != [] && ms[0].value == Undefined {
      MembersUnique(ms[1..], ms', first, x, y);
    } else if ms' != [] && ms'[0].value == Undefined {
      MembersUnique(ms, ms'[1..], first, x, y);
    } else {
      MembersHead(ms, first, x);
      MembersHead(ms', first, y);
      if ms == [] {
        Rest([CLOSE_BRACE], x, [CLOSE_BRACE], y);
      } else {
        var r, r' := MembersText(ms[1..], false) + x, MembersText(ms'[1..], false) + y;
        HeadMemberUnique(ms, ms', first, x, y);
        AfterMember(ms[1..], x);
        AfterMember(ms'[1..], y);
        TextUnique(ms[0].value, ms'[0].value, r, r');
        MembersUnique(ms[1..], ms'[1..], false, x, y);
      }
    }
  }

  /** The first printed members have the same key. */
  lemma {:induction false} HeadMemberUnique(ms: seq<Member>, ms': seq<Member>, first: bool, x: Text, y: Text)
    requires ms != [] && ms[0].value != Undefined && ms' != [] && ms'[0].value != Undefined
    requires MembersText(ms, first) + x == MembersText(ms', first) + y
    ensures ms[0].key == ms'[0].key
    ensures TextOf(ms[0].value) + (MembersText(ms[1..], false) + x)
         == TextOf(ms'[0].value) + (MembersText(ms'[1..], false) + y)
  {
    hide TextOf, Quoted, MembersText;
    var t := TextOf(ms[0].value) + (MembersText(ms[1..], false) + x);
    var t' := TextOf(ms'[0].value) + (MembersText(ms'[1..], false) + y);
    MemberSplit(ms, first, x);
    MemberSplit(ms', first, y);
    Rest(Separator(first), Quoted(ms[0].key) + ([COLON] + t), Separator(first), Quoted(ms'[0].key) + ([COLON] + t'));
    QuotedUnique(ms[0].key, ms'[0].key, [COLON] + t, [COLON] + t');
    Rest([COLON], t, [COLON], t');
  }

  /** Two values with the same text mean the same. */
  lemma {:induction false} StringifyDetermines(a: Json, b: Json)
    requires WellFormed(a) && WellFormed(b) && Stringify(a) == Stringify(b)
    ensures MeanTop(a) == MeanTop(b)
  {
    if a != Undefined {
      assert TextOf(a) + [] == TextOf(a) && TextOf(b) + [] == TextOf(b);
      TextUnique(a, b, [], []);
    }
  }

  // ---------------------------------------------------------------- the tokens, unit by unit

  lemma {:induction false} LiteralTexts()
    ensures TextOf(Null) == [110, 117, 108, 108] && TextOf(Undefined) == TextOf(Null) && TextOf(NonFinite) == TextOf(Null)
    ensures TextOf(Bool(true)) == [116, 114, 117, 101] && TextOf(Bool(false)) == [102, 97, 108, 115, 101]
    ensures forall d: Text :: TextOf(Num(d)) == d
    ensures forall s: Text :: TextOf(Str(s)) == [34] + Escaped(s) + [34]
    ensures Stringify(Undefined) == None && forall v: Json :: v != Undefined ==> Stringify(v) == Some(TextOf(v))
  {
  }

  /** Parts with a comma between them. */
  function Joined(parts: seq<Text>): Text {
    if parts == [] then [] else if |parts| == 1 then parts[0] else parts[0] + [44] + Joined(parts[1..])
  }

  function ItemParts(items: seq<Json>): seq<Text> {
    if items == [] then [] else [TextOf(items[0])] + ItemParts(items[1..])
  }

  /** Key, colon and value of the members that are printed. */
  function MemberParts(ms: seq<Member>): seq<Text> {
    if ms == [] then []
    else
      (if ms[0].value == Undefined then [] else [[34] + Escaped(ms[0].key) + [34, 58] + TextOf(ms[0].value)])
      + MemberParts(ms[1..])
  }

  lemma {:induction false} JoinedCons(p: Text, parts: seq<Text>)
    ensures Joined([p] + parts) == if parts == [] then p else p + [44] + Joined(parts)
  {
    assert ([p] + parts)[1..] == parts;
  }

  /** An array is its elements between brackets, with commas between them. */
  lemma {:induction false} ArrayText(items: seq<Json>)
    ensures TextOf(Arr(items)) == [91] + Joined(ItemParts(items)) + [93]
  {
    ItemsJoined(items);
    assert Joined([]) == [];
  }

  lemma {:induction false} ItemsJoined(items: seq<Json>)
    ensures ItemsText(items, true) == Joined(ItemParts(items)) + [93]
    ensures ItemsText(items, false) == (if items == [] then [] else [44] + Joined(ItemParts(items))) + [93]
  {
    hide TextOf;
    if items != [] {
      ItemsJoined(items[1..]);
      JoinedCons(TextOf(items[0]), ItemParts(items[1..]));
      assert ItemParts(items[1..]) == [] <==> items[1..] == [];
    }
  }

  /** An object is its members that are not `undefined` between braces, with commas between them. */
  lemma {:induction false} ObjectText(ms: seq<Member>)
    ensures TextOf(Obj(ms)) == [123] + Joined(MemberParts(ms)) + [125]
  {
    MembersJoined(ms);
  }

  lemma {:induction false} MembersJoined(ms: seq<Member>)
    ensures MembersText(ms, true) == Joined(MemberParts(ms)) + [125]
    ensures MembersText(ms, false) == (if MemberParts(ms) == [] then [] else [44] + Joined(MemberParts(ms))) + [125]
    decreases ms
  {
    hide Joined, MembersText, MemberParts;
    if ms == [] {
      NoMemberTexts();
    } else {
      MembersJoined(ms[1..]);
      MemberTexts(ms);
      var rest := MemberParts(ms[1..]);
      if ms[0].value != Undefined {
        var p := MemberParts(ms)[0];
        JoinedCons(p, rest);
        if rest != [] {
          Regroup(p, [44] + Joined(rest), [125]);
          Regroup(p, [44], Joined(rest));
          Regroup([44], p, MembersText(ms[1..], false));
          Regroup([44], Joined(MemberParts(ms)), [125]);
        } else {
          Regroup([44], p, [125]);
          assert [] + [125] == [125];
        }
      }
    }
  }

  lemma {:induction false} NoMemberTexts()
    ensures MembersText([], true) == [125] && MembersText([], false) == [125] && MemberParts([]) == [] && Joined([]) == []
    ensures [] + [125] == [125]
  {
  }

  lemma {:induction false} MemberTexts(ms: seq<Member>)
    requires ms != []
    ensures ms[0].value == Undefined ==>
      && MemberParts(ms) == MemberParts(ms[1..])
      && MembersText(ms, true) == MembersText(ms[1..], true) && MembersText(ms, false) == MembersText(ms[1..], false)
    ensures ms[0].value != Undefined ==>
      var p := [34] + Escaped(ms[0].key) + [34, 58] + TextOf(ms[0].value);
      && MemberParts(ms) == [p] + MemberParts(ms[1..]) && MemberParts(ms)[0] == p
      && MembersText(ms, true) == p + MembersText(ms[1..], false)
      && MembersText(ms, false) == [44] + p + MembersText(ms[1..], false)
  {
    hide TextOf, Escaped;
    var k, v := Escaped(ms[0].key), TextOf(ms[0].value);
    assert [34] + k + [34] + [58] + v == [34] + k + [34, 58] + v;
  }

  /** The escapes that have a letter. */
  lemma {:induction false} LetterEscapes()
    ensures EscapeUnit(8) == [92, 98] && EscapeUnit(9) == [92, 116] && EscapeUnit(10) == [92, 110]
    ensures EscapeUnit(12) == [92, 102] && EscapeUnit(13) == [92, 114]
    ensures EscapeUnit(34) == [92, 34] && EscapeUnit(92) == [92, 92]
  {
  }

  function HexUnitValue(u: Unit): nat {
    if 48 <= u <= 57 then u - 48 else if 97 <= u <= 102 then u - 87 else 16
  }

  /** Other control units and surrogates that stand alone have four lower-case hexadecimal digits;
      everything else stands for itself. */
  lemma {:induction false} OtherEscapes(u: Unit)
    requires u !in {8, 9, 10, 12, 13, 34, 92}
    ensures 32 <= u < 0xD800 || u > 0xDFFF ==> EscapeUnit(u) == [u]
    ensures u < 32 || 0xD800 <= u <= 0xDFFF ==>
      var e := EscapeUnit(u);
      && |e| == 6 && e[0] == 92 && e[1] == 117
      && HexUnitValue(e[2]) < 16 && HexUnitValue(e[3]) < 16 && HexUnitValue(e[4]) < 16 && HexUnitValue(e[5]) < 16
      && HexUnitValue(e[2]) * 4096 + HexUnitValue(e[3]) * 256 + HexUnitValue(e[4]) * 16 + HexUnitValue(e[5]) == u
  {
    Nibbles(u);
    HexDigitsRead(u / 4096);
    HexDigitsRead(u / 256 % 16);
    HexDigitsRead(u / 16 % 16);
    HexDigitsRead(u % 16);
  }

  lemma {:induction false} HexDigitsRead(d: nat)
    requires d < 16
    ensures HexUnitValue(HexDigit(d)) == d
  {
  }

  /** A high and a low surrogate in this order stay; every other unit is escaped on its own. */
  lemma {:induction false} SurrogatesEscaped(s: Text)
    ensures Escaped([]) == []
    ensures |s| >= 2 && 0xD800 <= s[0] <= 0xDBFF && 0xDC00 <= s[1] <= 0xDFFF ==> Escaped(s) == s[..2] + Escaped(s[2..])
    ensures s != [] && !(|s| >= 2 && 0xD800 <= s[0] <= 0xDBFF && 0xDC00 <= s[1] <= 0xDFFF) ==>
              Escaped(s) == EscapeUnit(s[0]) + Escaped(s[1..])
  {
  }
}
