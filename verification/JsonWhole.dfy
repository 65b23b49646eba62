/** When canonical JSON loses nothing: exactly for values without a member named "__proto__". */
module JsonWhole {
  import opened Basics
  import opened JsonText
  import opened JsonCanonical

  /** The whole value up to the order of keys: only what JSON has no text for is missing, that is
      `undefined` members. */
  function Whole(v: Json): Meaning
    decreases v, 1
  {
    match v
    case Undefined => MNull
    case Null => MNull
    case NonFinite => MNull
    case Bool(b) => MBool(b)
    case Num(digits) => MNum(digits)
    case Str(s) => MStr(s)
    case Arr(items) => MArr(WholeItems(items))
    case Obj(ms) => MObj(WholeMembers(ms))
  }

  function WholeItems(items: seq<Json>): (r: seq<Meaning>)
    ensures |r| == |items|
    decreases items, 0
  {
    if items == [] then [] else [Whole(items[0])] + WholeItems(items[1..])
  }

  function WholeMembers(ms: seq<Member>): map<Text, Meaning>
    decreases ms, 0
  {
    if ms == [] then map[]
    else
      var rest := WholeMembers(ms[1..]);
      if ms[0].value != Undefined then rest[ms[0].key := Whole(ms[0].value)] else rest
  }

  function WholeTop(v: Json): Option<Meaning> {
    if v == Undefined then None else Some(Whole(v))
  }

  /** No member at any depth is named "__proto__", unless it is `undefined`. */
  ghost predicate NoProto(v: Json)
    decreases v
  {
    match v
    case Arr(items) => forall i :: 0 <= i < |items| ==> NoProto(items[i])
    case Obj(ms) => forall i :: 0 <= i < |ms| && ms[i].value != Undefined ==> ms[i].key != PROTO && NoProto(ms[i].value)
    case _ => true
  }

  // ---------------------------------------------------------------- what the text carries

  lemma {:induction false} WholeItemsAt(items: seq<Json>, i: nat)
    requires i < |items|
    ensures WholeItems(items)[i] == Whole(items[i]) && MeanItems(items)[i] == Mean(items[i])
  {
    if i > 0 {
      WholeItemsAt(items[1..], i - 1);
    }
  }

  /** With distinct keys, the map holds each printed member's value. */
  lemma {:induction false} WholeMembersAt(ms: seq<Member>, i: nat)
    requires DistinctKeys(ms) && i < |ms| && ms[i].value != Undefined
    ensures ms[i].key in WholeMembers(ms) && WholeMembers(ms)[ms[i].key] == Whole(ms[i].value)
  {
    if i > 0 {
      assert ms[1..][i - 1] == ms[i] && ms[0].key != ms[i].key;
      WholeMembersAt(ms[1..], i - 1);
    }
  }

  lemma {:induction false} SameMembers(ms: seq<Member>)
    requires forall i :: 0 <= i < |ms| && ms[i].value != Undefined ==>
               ms[i].key != PROTO && Whole(ms[i].value) == Mean(ms[i].value)
    ensures WholeMembers(ms) == MeanMembers(ms)
  {
    hide Whole, Mean;
    if ms != [] {
      assert forall i :: 0 <= i < |ms[1..]| ==> ms[1..][i] == ms[i + 1];
      SameMembers(ms[1..]);
    }
  }

  lemma {:induction false} SameItems(items: seq<Json>)
    requires forall i :: 0 <= i < |items| ==> Whole(items[i]) == Mean(items[i])
    ensures WholeItems(items) == MeanItems(items)
  {
    hide Whole, Mean;
    if items != [] {
      SameItems(items[1..]);
    }
  }

  lemma {:induction false} ProtoNotCarried(ms: seq<Member>)
    ensures PROTO !in MeanMembers(ms)
  {
    hide Mean;
    if ms != [] {
      ProtoNotCarried(ms[1..]);
    }
  }

  /** A member that is lost, or whose value differs, makes the objects differ. */
  lemma {:induction false} MemberDiffers(ms: seq<Member>, i: nat)
    requires DistinctKeys(ms) && i < |ms| && ms[i].value != Undefined
    requires ms[i].key == PROTO || Whole(ms[i].value) != Mean(ms[i].value)
    ensures WholeMembers(ms) != MeanMembers(ms)
  {
    hide Whole, Mean, WholeMembers, MeanMembers;
    WholeMembersAt(ms, i);
    if ms[i].key == PROTO {
      ProtoNotCarried(ms);
    } else {
      MeanMembersSpec(ms);
      assert ms[i] in ms && IsCarried(ms[i]);
    }
  }

  /** What the text carries is the whole value exactly when no member is named "__proto__". */
  lemma {:induction false} CarriesWhole(v: Json)
    requires WellFormed(v)
    ensures Whole(v) == Mean(v) <==> NoProto(v)
    decreases v
  {
    match v
    case Arr(items) =>
      forall i | 0 <= i < |items|
        ensures Whole(items[i]) == Mean(items[i]) <==> NoProto(items[i])
        ensures WholeItems(items)[i] == Whole(items[i]) && MeanItems(items)[i] == Mean(items[i])
      {
        CarriesWhole(items[i]);
        WholeItemsAt(items, i);
      }
      if NoProto(v) {
        SameItems(items);
      }
    case Obj(ms) =>
      forall i | 0 <= i < |ms|
        ensures Whole(ms[i].value) == Mean(ms[i].value) <==> NoProto(ms[i].value)
      {
        CarriesWhole(ms[i].value);
      }
      if NoProto(v) {
        SameMembers(ms);
      } else {
        var i :| 0 <= i < |ms| && ms[i].value != Undefined && !(ms[i].key != PROTO && NoProto(ms[i].value));
        MemberDiffers(ms, i);
      }
    case _ =>
  }

  /** `sortJson` leaves no member named "__proto__". */
  lemma {:induction false} SortedHasNoProto(v: Json)
    requires WellFormed(v)
    ensures NoProto(SortJson(v))
    decreases v
  {
    match v
    case Arr(items) =>
      forall i | 0 <= i < |items|
        ensures NoProto(SortItems(items)[i])
      {
        SortItemsAt(items, i);
        SortedHasNoProto(items[i]);
      }
    case Obj(ms) =>
      var vs := SortValues(ms);
      var rs := Arranged(vs);
      ArrangedMembers(vs);
      forall k | 0 <= k < |rs|
        ensures rs[k].key != PROTO && NoProto(rs[k].value)
      {
        assert rs[k] in rs;
        var i :| 0 <= i < |vs| && vs[i] == rs[k];
        SortValuesAt(ms, i);
        SortedHasNoProto(ms[i].value);
      }
    case _ =>
  }

  // ---------------------------------------------------------------- main results

  /** `sortJson` changes nothing but the order of keys exactly when no member is named "__proto__". */
  lemma {:induction false} SortKeepsWhole(v: Json)
    requires WellFormed(v)
    ensures Whole(SortJson(v)) == Whole(v) <==> NoProto(v)
  {
    hide Whole, Mean, NoProto, SortJson;
    SortKeepsWellFormed(v);
    SortedHasNoProto(v);
    CarriesWhole(SortJson(v));
    CarriesWhole(v);
    SortPreservesMeaning(v);
  }

  /** Among values without "__proto__", equal texts are equal values up to the order of keys. */
  lemma {:induction false} CanonicalTextIsWhole(a: Json, b: Json)
    requires WellFormed(a) && WellFormed(b) && NoProto(a) && NoProto(b)
    ensures CanonJson(a) == CanonJson(b) <==> WholeTop(a) == WholeTop(b)
  {
    hide Whole, Mean, NoProto, CanonJson;
    CarriesWhole(a);
    CarriesWhole(b);
    CanonicalText(a, b);
  }

  /** A value is identified by its text, among values without "__proto__", exactly when it has no
      such member itself: otherwise the value without it has the same text. */
  lemma {:induction false} TextIdentifies(a: Json)
    requires WellFormed(a)
    ensures (forall b :: WellFormed(b) && NoProto(b) && CanonJson(b) == CanonJson(a) ==> WholeTop(b) == WholeTop(a))
       <==> NoProto(a)
  {
    hide Whole, Mean, NoProto, SortJson, WellFormed;
    if NoProto(a) {
      forall b | WellFormed(b) && NoProto(b) && CanonJson(b) == CanonJson(a)
        ensures WholeTop(b) == WholeTop(a)
      {
        CanonicalTextIsWhole(b, a);
      }
    } else {
      var b := SortJson(a);
      SortKeepsWellFormed(a);
      SortedHasNoProto(a);
      SortJsonIdempotent(a);
      SortKeepsWhole(a);
      SortKeepsUndefined(a);
      assert CanonJson(b) == CanonJson(a);
    }
  }
}
