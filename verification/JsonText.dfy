/**
 Canonical JSON text (frontend/src/services/sync-device-crypto.ts): `sortJson`, then
 `JSON.stringify` after section 25.5.2 of ECMA-262, whose tokens are those of RFC 8259.

 Text is a sequence of UTF-16 code units.  A finite number is represented by the text that
 `Number::toString` gives it, so two numbers are equal exactly when their texts are (-0 prints as 0).
 An object is the sequence of its own members in enumeration order.
 */
module JsonText {
  import opened Basics
  import opened LexOrder
  import opened StableSort

  type Unit = u: nat | u < 0x1_0000
  type Text = seq<Unit>

  datatype Json =
    | Undefined
    | Null
    | Bool(truth: bool)
    | Num(digits: Text)
    | NonFinite
    | Str(text: Text)
    | Arr(items: seq<Json>)
    | Obj(members: seq<Member>)

  datatype Member = Member(key: Text, value: Json)

  const QUOTE: Unit := 34
  const COMMA: Unit := 44
  const COLON: Unit := 58
  const OPEN_BRACKET: Unit := 91
  const BACKSLASH: Unit := 92
  const CLOSE_BRACKET: Unit := 93
  const OPEN_BRACE: Unit := 123
  const CLOSE_BRACE: Unit := 125
  const LETTER_U: Unit := 117

  /** The key "__proto__". */
  const PROTO: Text := [95, 95, 112, 114, 111, 116, 111, 95, 95]

  // ---------------------------------------------------------------- well-formed values

  predicate IsDigit(u: Unit) { 48 <= u <= 57 }

  /** Digits, `+`, `-`, `.` and `e`. */
  predicate InNumber(u: Unit) {
    IsDigit(u) || u == 43 || u == 45 || u == 46 || u == 101
  }

  predicate IsNumberText(t: Text) {
    t != [] && (IsDigit(t[0]) || t[0] == 45) && forall i :: 0 <= i < |t| ==> InNumber(t[i])
  }

  ghost predicate DistinctKeys(ms: seq<Member>) {
    forall i, j :: 0 <= i < j < |ms| ==> ms[i].key != ms[j].key
  }

  /** Keys of an object are distinct, and numbers carry number text. */
  ghost predicate WellFormed(v: Json)
    decreases v
  {
    match v
    case Num(t) => IsNumberText(t)
    case Arr(items) => forall i :: 0 <= i < |items| ==> WellFormed(items[i])
    case Obj(ms) => DistinctKeys(ms) && forall i :: 0 <= i < |ms| ==> WellFormed(ms[i].value)
    case _ => true
  }

  // ---------------------------------------------------------------- the order of keys

  /** String comparison by code units, as `Array.prototype.sort` compares. */
  predicate TextLe(a: Text, b: Text) {
    LexLe(UnitLt, a, b)
  }

  predicate UnitLt(a: Unit, b: Unit) { a < b }

  function TextNumber(t: Text): nat {
    if t == [] || !IsDigit(t[|t| - 1]) then 0 else TextNumber(t[..|t| - 1]) * 10 + (t[|t| - 1] - 48)
  }

  /** Keys that an object enumerates before all others: canonical array indices. */
  predicate IsIndex(t: Text) {
    && t != [] && (forall i :: 0 <= i < |t| ==> IsDigit(t[i]))
    && (t[0] == 48 ==> |t| == 1)
    && TextNumber(t) < 0xFFFF_FFFF
  }

  predicate KeyFirst(a: Member, b: Member) { TextLe(a.key, b.key) }

  predicate IndexFirst(a: Member, b: Member) { TextNumber(a.key) <= TextNumber(b.key) }

  predicate HasIndexKey(m: Member) { IsIndex(m.key) }

  predicate HasNameKey(m: Member) { !IsIndex(m.key) }

  /** Assigning to "__proto__" sets the prototype instead of a member. */
  predicate IsAssignable(m: Member) { m.key != PROTO }

  /** The enumeration order of an object whose members were assigned in the order `ms`. */
  function Enumerated(ms: seq<Member>): seq<Member> {
    Sort(IndexFirst, Filter(HasIndexKey, ms)) + Filter(HasNameKey, ms)
  }

  // ---------------------------------------------------------------- sortJson

  function SortJson(v: Json): Json
    decreases v, 1
  {
    match v
    case Arr(items) => Arr(SortItems(items))
    case Obj(ms) => Obj(Enumerated(Filter(IsAssignable, Sort(KeyFirst, SortValues(ms)))))
    case _ => v
  }

  function SortItems(items: seq<Json>): (r: seq<Json>)
    ensures |r| == |items|
    decreases items, 0
  {
    if items == [] then [] else [SortJson(items[0])] + SortItems(items[1..])
  }

  function SortValues(ms: seq<Member>): (r: seq<Member>)
    ensures |r| == |ms|
    decreases ms, 0
  {
    if ms == [] then [] else [Member(ms[0].key, SortJson(ms[0].value))] + SortValues(ms[1..])
  }

  // ---------------------------------------------------------------- JSON.stringify

  function HexDigit(d: nat): Unit
    requires d < 16
  {
    if d < 10 then 48 + d else 97 + (d - 10)
  }

  function UnicodeEscape(u: Unit): Text {
    [BACKSLASH, LETTER_U, HexDigit(u / 4096), HexDigit(u / 256 % 16), HexDigit(u / 16 % 16), HexDigit(u % 16)]
  }

  predicate IsHigh(u: Unit) { 0xD800 <= u <= 0xDBFF }

  predicate IsLow(u: Unit) { 0xDC00 <= u <= 0xDFFF }

  function EscapeUnit(u: Unit): Text {
    if u == 8 then [BACKSLASH, 98]
    else if u == 9 then [BACKSLASH, 116]
    else if u == 10 then [BACKSLASH, 110]
    else if u == 12 then [BACKSLASH, 102]
    else if u == 13 then [BACKSLASH, 114]
    else if u == QUOTE || u == BACKSLASH then [BACKSLASH, u]
    else if u < 32 || IsHigh(u) || IsLow(u) then UnicodeEscape(u)
    else [u]
  }

  predicate StartsPair(s: Text) {
    |s| >= 2 && IsHigh(s[0]) && IsLow(s[1])
  }

  /** The characters of a string literal: surrogate pairs stay, lone surrogates are escaped. */
  function Escaped(s: Text): Text {
    if s == [] then []
    else if StartsPair(s) then s[..2] + Escaped(s[2..])
    else EscapeUnit(s[0]) + Escaped(s[1..])
  }

  function Quoted(s: Text): Text {
    [QUOTE] + Escaped(s) + [QUOTE]
  }

  const NULL_TEXT: Text := [110, 117, 108, 108]
  const TRUE_TEXT: Text := [116, 114, 117, 101]
  const FALSE_TEXT: Text := [102, 97, 108, 115, 101]

  /** The text of a value as an array element, where `undefined` prints as null. */
  function TextOf(v: Json): Text
    decreases v, 1
  {
    match v
    case Undefined => NULL_TEXT
    case Null => NULL_TEXT
    case NonFinite => NULL_TEXT
    case Bool(b) => if b then TRUE_TEXT else FALSE_TEXT
    case Num(digits) => digits
    case Str(s) => Quoted(s)
    case Arr(items) => [OPEN_BRACKET] + ItemsText(items, true)
    case Obj(ms) => [OPEN_BRACE] + MembersText(ms, true)
  }

  function Separator(first: bool): Text {
    if first then [] else [COMMA]
  }

  /** The rest of an array, from the next element to the closing bracket. */
  function ItemsText(items: seq<Json>, first: bool): Text
    decreases items, 0
  {
    if items == [] then [CLOSE_BRACKET]
    else Separator(first) + TextOf(items[0]) + ItemsText(items[1..], false)
  }

  /** The rest of an object; members whose value is `undefined` are left out. */
  function MembersText(ms: seq<Member>, first: bool): Text
    decreases ms, 0
  {
    if ms == [] then [CLOSE_BRACE]
    else if ms[0].value == Undefined then MembersText(ms[1..], first)
    else Separator(first) + Quoted(ms[0].key) + [COLON] + TextOf(ms[0].value) + MembersText(ms[1..], false)
  }

  function Stringify(v: Json): Option<Text> {
    if v == Undefined then None else Some(TextOf(v))
  }

  function CanonJson(v: Json): Option<Text> {
    Stringify(SortJson(v))
  }

  // ---------------------------------------------------------------- what a value means

  /** Objects are maps: this is equality up to the order of keys at every depth. */
  datatype Meaning =
    | MNull
    | MBool(truth: bool)
    | MNum(digits: Text)
    | MStr(text: Text)
    | MArr(items: seq<Meaning>)
    | MObj(members: map<Text, Meaning>)

  /** The value that a canonical text carries: `undefined` members and members named "__proto__"
      vanish, other `undefined` values and non-finite numbers are null.  JsonWhole says when this
      is the whole value. */
  function Mean(v: Json): Meaning
    decreases v, 1
  {
    match v
    case Undefined => MNull
    case Null => MNull
    case NonFinite => MNull
    case Bool(b) => MBool(b)
    case Num(digits) => MNum(digits)
    case Str(s) => MStr(s)
    case Arr(items) => MArr(MeanItems(items))
    case Obj(ms) => MObj(MeanMembers(ms))
  }

  function MeanItems(items: seq<Json>): (r: seq<Meaning>)
    ensures |r| == |items|
    decreases items, 0
  {
    if items == [] then [] else [Mean(items[0])] + MeanItems(items[1..])
  }

  predicate IsCarried(m: Member) { m.value != Undefined && m.key != PROTO }

  function MeanMembers(ms: seq<Member>): map<Text, Meaning>
    decreases ms, 0
  {
    if ms == [] then map[]
    else
      var rest := MeanMembers(ms[1..]);
      if IsCarried(ms[0]) then rest[ms[0].key := Mean(ms[0].value)] else rest
  }

  function MeanTop(v: Json): Option<Meaning> {
    if v == Undefined then None else Some(Mean(v))
  }
}
