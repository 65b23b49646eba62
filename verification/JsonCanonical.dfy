/** `canonJson` is canonical: one text per carried value, whatever the order of keys at every depth. */
module JsonCanonical {
  import opened Basics
  import opened LexOrder
  import opened StableSort
  import opened JsonText
  import opened JsonPrinter

  // ---------------------------------------------------------------- the orders

  lemma {:induction false} TextLeOrders(a: Text, b: Text, c: Text)
    ensures TextLe(a, b) || TextLe(b, a)
    ensures TextLe(a, b) && TextLe(b, a) ==> a == b
    ensures TextLe(a, b) && TextLe(b, c) ==> TextLe(a, c)
  {
    LexLeIsTotalOrder(UnitLt, a, b, c);
  }

  lemma {:induction false} KeyOrdersAreTotal()
    ensures TotalPreorder(KeyFirst) && TotalPreorder(IndexFirst)
  {
    forall x: Member, y: Member
      ensures KeyFirst(x, y) || KeyFirst(y, x)
    {
      TextLeOrders(x.key, y.key, []);
    }
    forall x: Member, y: Member, z: Member | KeyFirst(x, y) && KeyFirst(y, z)
      ensures KeyFirst(x, z)
    {
      TextLeOrders(x.key, y.key, z.key);
    }
  }

  // ---------------------------------------------------------------- sortJson as a rearrangement

  /** The members of `sortJson` of an object, from its members with sorted values. */
  function Arranged(ms: seq<Member>): seq<Member> {
    Enumerated(Filter(IsAssignable, Sort(KeyFirst, ms)))
  }

  lemma {:induction false} SplitByIndex(ms: seq<Member>)
    ensures multiset(ms) == multiset(Filter(HasIndexKey, ms)) + multiset(Filter(HasNameKey, ms))
  {
    if ms != [] {
      SplitByIndex(ms[1..]);
      assert ms == [ms[0]] + ms[1..];
    }
  }

  lemma {:induction false} EnumeratedPermutes(ms: seq<Member>)
    ensures multiset(Enumerated(ms)) == multiset(ms)
  {
    KeyOrdersAreTotal();
    SplitByIndex(ms);
    SortSorts(IndexFirst, Filter(HasIndexKey, ms));
  }

  /** Nothing but members named "__proto__" is lost. */
  lemma {:induction false} ArrangedPermutes(ms: seq<Member>)
    ensures multiset(Arranged(ms)) == multiset(Filter(IsAssignable, ms))
  {
    KeyOrdersAreTotal();
    EnumeratedPermutes(Filter(IsAssignable, Sort(KeyFirst, ms)));
    FilterSort(KeyFirst, IsAssignable, ms);
    SortSorts(KeyFirst, Filter(IsAssignable, ms));
  }

  lemma {:induction false} DistinctKeysSub(ms: seq<Member>, ns: seq<Member>)
    requires DistinctKeys(ms) && multiset(ns) <= multiset(ms)
    ensures DistinctKeys(ns)
  {
    forall i, j | 0 <= i < j < |ns|
      ensures ns[i].key != ns[j].key
    {
      assert ns[i] in multiset(ns) && ns[j] in multiset(ns);
      if ns[i] == ns[j] {
        TwoPlaces(ns, ns[i]);
        OnceEachMember(ms, ns[i]);
      } else {
        assert ns[i] in ms && ns[j] in ms;
      }
    }
  }

  lemma {:induction false} OnceEachMember(ms: seq<Member>, m: Member)
    requires DistinctKeys(ms)
    ensures multiset(ms)[m] <= 1
  {
    OnceEach(ms, m);
  }

  lemma {:induction false} SortValuesAt(ms: seq<Member>, i: nat)
    requires i < |ms|
    ensures SortValues(ms)[i] == Member(ms[i].key, SortJson(ms[i].value))
  {
    if i > 0 {
      SortValuesAt(ms[1..], i - 1);
    }
  }

  lemma {:induction false} SortItemsAt(items: seq<Json>, i: nat)
    requires i < |items|
    ensures SortItems(items)[i] == SortJson(items[i])
  {
    if i > 0 {
      SortItemsAt(items[1..], i - 1);
    }
  }

  lemma {:induction false} SortValuesDistinct(ms: seq<Member>)
    requires DistinctKeys(ms)
    ensures DistinctKeys(SortValues(ms)) && DistinctKeys(Arranged(SortValues(ms)))
  {
    var vs := SortValues(ms);
    forall i, j | 0 <= i < j < |vs|
      ensures vs[i].key != vs[j].key
    {
      SortValuesAt(ms, i);
      SortValuesAt(ms, j);
    }
    ArrangedPermutes(vs);
    FilterWithin(IsAssignable, vs);
    DistinctKeysSub(vs, Arranged(vs));
  }

  /** Every member of the result comes from a member of the input, and conversely. */
  lemma {:induction false} ArrangedMembers(ms: seq<Member>)
    ensures forall m :: m in Arranged(ms) <==> m in ms && IsAssignable(m)
  {
    ArrangedPermutes(ms);
    PermutationKeepsMembers(Arranged(ms), Filter(IsAssignable, ms));
    FilterIn(IsAssignable, ms);
  }

  lemma {:induction false} SortKeepsWellFormed(v: Json)
    requires WellFormed(v)
    ensures WellFormed(SortJson(v))
    ensures SortJson(v) == Undefined <==> v == Undefined
    decreases v
  {
    match v
    case Arr(items) =>
      forall i | 0 <= i < |items|
        ensures WellFormed(SortItems(items)[i])
      {
        SortItemsAt(items, i);
        SortKeepsWellFormed(items[i]);
      }
    case Obj(ms) =>
      var vs := SortValues(ms);
      SortValuesDistinct(ms);
      ArrangedMembers(vs);
      forall k | 0 <= k < |Arranged(vs)|
        ensures WellFormed(Arranged(vs)[k].value)
      {
        assert Arranged(vs)[k] in Arranged(vs);
        var i :| 0 <= i < |vs| && vs[i] == Arranged(vs)[k];
        SortValuesAt(ms, i);
        SortKeepsWellFormed(ms[i].value);
      }
    case _ =>
  }

  // ---------------------------------------------------------------- sorting preserves the value

  lemma {:induction false} MeanMembersSpec(ms: seq<Member>)
    requires DistinctKeys(ms)
    ensures forall m :: m in ms && IsCarried(m) ==> m.key in MeanMembers(ms) && MeanMembers(ms)[m.key] == Mean(m.value)
    ensures forall k :: k in MeanMembers(ms) ==> exists m :: m in ms && IsCarried(m) && m.key == k
  {
    hide Mean;
    if ms != [] {
      MeanMembersSpec(ms[1..]);
      forall k | k in MeanMembers(ms)
        ensures exists m :: m in ms && IsCarried(m) && m.key == k
      {
        if k in MeanMembers(ms[1..]) {
          var m :| m in ms[1..] && IsCarried(m) && m.key == k;
          assert m in ms;
        } else {
          assert ms[0] in ms && IsCarried(ms[0]) && ms[0].key == k;
        }
      }
      forall m | m in ms && IsCarried(m)
        ensures m.key in MeanMembers(ms) && MeanMembers(ms)[m.key] == Mean(m.value)
      {
        var i :| 0 <= i < |ms| && ms[i] == m;
        if i > 0 {
          assert m in ms[1..] && m.key != ms[0].key;
        }
      }
    }
  }

  /** `sortJson` keeps the carried value. */
  lemma {:induction false} SortPreservesMeaning(v: Json)
    requires WellFormed(v)
    ensures Mean(SortJson(v)) == Mean(v)
    decreases v
  {
    match v
    case Arr(items) =>
      forall i | 0 <= i < |items|
        ensures Mean(SortItems(items)[i]) == Mean(items[i])
      {
        SortItemsAt(items, i);
        SortPreservesMeaning(items[i]);
      }
      MeanItemsEqual(SortItems(items), items);
    case Obj(ms) =>
      forall i | 0 <= i < |ms|
        ensures Mean(SortValues(ms)[i].value) == Mean(ms[i].value)
      {
        SortValuesAt(ms, i);
        SortPreservesMeaning(ms[i].value);
      }
      SortMembersMeaning(ms);
    case _ =>
  }

  lemma {:induction false} MeanItemsEqual(a: seq<Json>, b: seq<Json>)
    requires |a| == |b| && forall i :: 0 <= i < |a| ==> Mean(a[i]) == Mean(b[i])
    ensures MeanItems(a) == MeanItems(b)
  {
    if a != [] {
      MeanItemsEqual(a[1..], b[1..]);
    }
  }

  lemma {:induction false} SortMembersMeaning(ms: seq<Member>)
    requires DistinctKeys(ms) && forall i :: 0 <= i < |ms| ==> WellFormed(ms[i].value)
    requires forall i :: 0 <= i < |ms| ==> Mean(SortValues(ms)[i].value) == Mean(ms[i].value)
    ensures MeanMembers(Arranged(SortValues(ms))) == MeanMembers(ms)
  {
    hide Mean, MeanMembers, Arranged, WellFormed;
    var vs := SortValues(ms);
    var rs := Arranged(vs);
    SortValuesDistinct(ms);
    ArrangedMembers(vs);
    MeanMembersSpec(ms);
    MeanMembersSpec(rs);
    var a, b := MeanMembers(rs), MeanMembers(ms);
    forall i | 0 <= i < |ms|
      ensures vs[i].key == ms[i].key && (IsCarried(vs[i]) <==> IsCarried(ms[i]))
      ensures IsCarried(ms[i]) ==> vs[i] in rs
    {
      SortValuesAt(ms, i);
      SortKeepsUndefined(ms[i].value);
    }
    forall k | k in b
      ensures k in a && a[k] == b[k]
    {
      var m :| m in ms && IsCarried(m) && m.key == k;
      var i :| 0 <= i < |ms| && ms[i] == m;
      assert vs[i] in rs && IsCarried(vs[i]);
    }
    forall k | k in a
      ensures k in b
    {
      var r :| r in rs && IsCarried(r) && r.key == k;
      var i :| 0 <= i < |vs| && vs[i] == r;
      assert ms[i] in ms;
    }
    assert a.Keys == b.Keys;
  }

  lemma {:induction false} SortKeepsUndefined(v: Json)
    ensures SortJson(v) == Undefined <==> v == Undefined
  {
  }

  // ---------------------------------------------------------------- equal values, equal texts

  /** A printed member: its key and the text of its value. */
  datatype Entry = Entry(key: Text, text: Text)

  function Print(m: Member): Option<Entry> {
    if m.value == Undefined then None else Some(Entry(m.key, TextOf(m.value)))
  }

  predicate EntryKeyFirst(a: Entry, b: Entry) { TextLe(a.key, b.key) }

  predicate EntryIndexFirst(a: Entry, b: Entry) { TextNumber(a.key) <= TextNumber(b.key) }

  predicate EntryHasIndexKey(e: Entry) { IsIndex(e.key) }

  predicate EntryHasNameKey(e: Entry) { !IsIndex(e.key) }

  predicate EntryIsAssignable(e: Entry) { e.key != PROTO }

  function EntriesText(es: seq<Entry>, first: bool): Text {
    if es == [] then [CLOSE_BRACE]
    else Separator(first) + Quoted(es[0].key) + [COLON] + es[0].text + EntriesText(es[1..], false)
  }

  lemma {:induction false} MembersTextIsEntries(ms: seq<Member>, first: bool)
    ensures MembersText(ms, first) == EntriesText(FilterMap(Print, ms), first)
    decreases ms
  {
    hide TextOf, Quoted;
    if ms != [] {
      MembersTextIsEntries(ms[1..], if ms[0].value == Undefined then first else false);
      var rest := FilterMap(Print, ms[1..]);
      if ms[0].value != Undefined {
        var e := Entry(ms[0].key, TextOf(ms[0].value));
        assert FilterMap(Print, ms) == [e] + rest && ([e] + rest)[1..] == rest;
      } else {
        assert FilterMap(Print, ms) == rest;
      }
    }
  }

  /** The printed members of an arranged object depend only on which members are printed. */
  function ArrangedEntries(es: seq<Entry>): seq<Entry> {
    var kept := Sort(EntryKeyFirst, Filter(EntryIsAssignable, es));
    Sort(EntryIndexFirst, Filter(EntryHasIndexKey, kept)) + Filter(EntryHasNameKey, kept)
  }

  lemma {:induction false} EntryOrderIsTotal()
    ensures TotalPreorder(EntryKeyFirst)
  {
    forall x: Entry, y: Entry
      ensures EntryKeyFirst(x, y) || EntryKeyFirst(y, x)
    {
      TextLeOrders(x.key, y.key, []);
    }
    forall x: Entry, y: Entry, z: Entry | EntryKeyFirst(x, y) && EntryKeyFirst(y, z)
      ensures EntryKeyFirst(x, z)
    {
      TextLeOrders(x.key, y.key, z.key);
    }
  }

  lemma {:induction false} PrintEnumerated(ms: seq<Member>)
    ensures FilterMap(Print, Enumerated(ms))
         == Sort(EntryIndexFirst, Filter(EntryHasIndexKey, FilterMap(Print, ms)))
          + Filter(EntryHasNameKey, FilterMap(Print, ms))
  {
    KeyOrdersAreTotal();
    FilterMapConcat(Print, Sort(IndexFirst, Filter(HasIndexKey, ms)), Filter(HasNameKey, ms));
    FilterMapSort(Print, IndexFirst, EntryIndexFirst, Filter(HasIndexKey, ms));
    FilterMapFilter(Print, HasIndexKey, EntryHasIndexKey, ms);
    FilterMapFilter(Print, HasNameKey, EntryHasNameKey, ms);
  }

  lemma {:induction false} PrintArranged(ms: seq<Member>)
    ensures FilterMap(Print, Arranged(ms)) == ArrangedEntries(FilterMap(Print, ms))
  {
    KeyOrdersAreTotal();
    EntryOrderIsTotal();
    PrintEnumerated(Filter(IsAssignable, Sort(KeyFirst, ms)));
    FilterMapFilter(Print, IsAssignable, EntryIsAssignable, Sort(KeyFirst, ms));
    FilterMapSort(Print, KeyFirst, EntryKeyFirst, ms);
    FilterSort(EntryKeyFirst, EntryIsAssignable, FilterMap(Print, ms));
  }

  /** The assignable entries an object prints. */
  function Entries(ms: seq<Member>): seq<Entry> {
    Filter(EntryIsAssignable, FilterMap(Print, SortValues(ms)))
  }

  lemma {:induction false} EntriesSpec(ms: seq<Member>)
    requires DistinctKeys(ms)
    ensures forall e :: e in Entries(ms) <==>
              exists i :: 0 <= i < |ms| && IsCarried(ms[i]) && e == Entry(ms[i].key, TextOf(SortJson(ms[i].value)))
    ensures forall i, j :: 0 <= i < j < |Entries(ms)| ==> Entries(ms)[i].key != Entries(ms)[j].key
  {
    hide TextOf, SortJson;
    if ms != [] {
      var rest := ms[1..];
      EntriesSpec(rest);
      SortValuesAt(ms, 0);
      SortKeepsUndefined(ms[0].value);
      assert SortValues(ms) == [Member(ms[0].key, SortJson(ms[0].value))] + SortValues(rest);
      FilterMapCons(Print, Member(ms[0].key, SortJson(ms[0].value)), SortValues(rest));
      var e0 := Entry(ms[0].key, TextOf(SortJson(ms[0].value)));
      FilterCons(EntryIsAssignable, e0, FilterMap(Print, SortValues(rest)));
      if ms[0].value == Undefined {
        assert FilterMap(Print, SortValues(ms)) == [] + FilterMap(Print, SortValues(rest));
        assert FilterMap(Print, SortValues(ms)) == FilterMap(Print, SortValues(rest));
      } else {
        assert FilterMap(Print, SortValues(ms)) == [e0] + FilterMap(Print, SortValues(rest));
      }
      assert Entries(ms) == (if IsCarried(ms[0]) then [e0] else []) + Entries(rest);
      EntriesConsSpec(ms, e0);
    }
  }

  lemma {:induction false} EntriesConsSpec(ms: seq<Member>, e0: Entry)
    requires DistinctKeys(ms) && ms != [] && e0 == Entry(ms[0].key, TextOf(SortJson(ms[0].value)))
    requires Entries(ms) == (if IsCarried(ms[0]) then [e0] else []) + Entries(ms[1..])
    requires forall e :: e in Entries(ms[1..]) <==>
               exists i :: 0 <= i < |ms[1..]| && IsCarried(ms[1..][i]) &&
                           e == Entry(ms[1..][i].key, TextOf(SortJson(ms[1..][i].value)))
    requires forall i, j :: 0 <= i < j < |Entries(ms[1..])| ==> Entries(ms[1..])[i].key != Entries(ms[1..])[j].key
    ensures forall e :: e in Entries(ms) <==>
              exists i :: 0 <= i < |ms| && IsCarried(ms[i]) && e == Entry(ms[i].key, TextOf(SortJson(ms[i].value)))
    ensures forall i, j :: 0 <= i < j < |Entries(ms)| ==> Entries(ms)[i].key != Entries(ms)[j].key
  {
    hide TextOf, SortJson, Entries, SortValues;
    var rest := ms[1..];
    forall e
      ensures e in Entries(ms) <==>
              exists i :: 0 <= i < |ms| && IsCarried(ms[i]) && e == Entry(ms[i].key, TextOf(SortJson(ms[i].value)))
    {
      if e in Entries(rest) {
        var i :| 0 <= i < |rest| && IsCarried(rest[i]) && e == Entry(rest[i].key, TextOf(SortJson(rest[i].value)));
        assert ms[i + 1] == rest[i];
      }
      if i :| 0 <= i < |ms| && IsCarried(ms[i]) && e == Entry(ms[i].key, TextOf(SortJson(ms[i].value))) {
        if i > 0 {
          assert rest[i - 1] == ms[i];
        }
      }
    }
    forall j | 0 <= j < |Entries(rest)|
      ensures Entries(rest)[j].key != ms[0].key
    {
      assert Entries(rest)[j] in Entries(rest);
      var i :| 0 <= i < |rest| && IsCarried(rest[i]) &&
               Entries(rest)[j] == Entry(rest[i].key, TextOf(SortJson(rest[i].value)));
      assert ms[i + 1] == rest[i];
    }
  }

  /** Values that mean the same print the same canonical text. */
  lemma {:induction false} SameMeaningSameText(a: Json, b: Json)
    requires WellFormed(a) && WellFormed(b) && Mean(a) == Mean(b)
    ensures TextOf(SortJson(a)) == TextOf(SortJson(b))
    decreases a, 1
  {
    match a
    case Arr(items) => SameItemsText(items, b.items, true);
    case Obj(ms) =>
      SameEntries(ms, b.members);
      SameEntriesText(ms, b.members);
    case _ =>
  }

  lemma {:induction false} SameItemsText(a: seq<Json>, b: seq<Json>, first: bool)
    requires forall i :: 0 <= i < |a| ==> WellFormed(a[i])
    requires forall i :: 0 <= i < |b| ==> WellFormed(b[i])
    requires MeanItems(a) == MeanItems(b)
    ensures ItemsText(SortItems(a), first) == ItemsText(SortItems(b), first)
    decreases a, 0
  {
    assert |MeanItems(a)| == |MeanItems(b)|;
    if a != [] {
      assert MeanItems(a)[0] == Mean(a[0]) && MeanItems(b)[0] == Mean(b[0]);
      assert MeanItems(a)[1..] == MeanItems(a[1..]) && MeanItems(b)[1..] == MeanItems(b[1..]);
      SameMeaningSameText(a[0], b[0]);
      SameItemsText(a[1..], b[1..], false);
    }
  }

  lemma {:induction false} SameEntries(ms: seq<Member>, ns: seq<Member>)
    requires DistinctKeys(ms) && forall i :: 0 <= i < |ms| ==> WellFormed(ms[i].value)
    requires DistinctKeys(ns) && forall i :: 0 <= i < |ns| ==> WellFormed(ns[i].value)
    requires MeanMembers(ms) == MeanMembers(ns)
    ensures multiset(Entries(ms)) == multiset(Entries(ns))
    decreases ms, 0
  {
    hide TextOf, SortJson, Entries, Mean, MeanMembers, WellFormed;
    MeanMembersSpec(ms);
    MeanMembersSpec(ns);
    forall i, j | 0 <= i < |ms| && 0 <= j < |ns| && IsCarried(ms[i]) && IsCarried(ns[j]) && ms[i].key == ns[j].key
      ensures TextOf(SortJson(ms[i].value)) == TextOf(SortJson(ns[j].value))
    {
      assert ms[i] in ms && ns[j] in ns;
      SameMeaningSameText(ms[i].value, ns[j].value);
    }
    EntriesWithin(ms, ns);
    EntriesWithin(ns, ms);
    EntriesSpec(ms);
    EntriesSpec(ns);
    SameMembersSameMultiset(Entries(ms), Entries(ns));
  }

  lemma {:induction false} EntriesWithin(ms: seq<Member>, ns: seq<Member>)
    requires DistinctKeys(ms) && DistinctKeys(ns) && MeanMembers(ms) == MeanMembers(ns)
    requires forall i, j :: 0 <= i < |ms| && 0 <= j < |ns| && IsCarried(ms[i]) && IsCarried(ns[j]) && ms[i].key == ns[j].key
               ==> TextOf(SortJson(ms[i].value)) == TextOf(SortJson(ns[j].value))
    ensures forall e :: e in Entries(ms) ==> e in Entries(ns)
  {
    hide TextOf, SortJson, Entries, Mean, MeanMembers;
    EntriesSpec(ms);
    EntriesSpec(ns);
    MeanMembersSpec(ms);
    MeanMembersSpec(ns);
    forall e | e in Entries(ms)
      ensures e in Entries(ns)
    {
      var i :| 0 <= i < |ms| && IsCarried(ms[i]) && e == Entry(ms[i].key, TextOf(SortJson(ms[i].value)));
      assert ms[i] in ms && ms[i].key in MeanMembers(ns);
      var n :| n in ns && IsCarried(n) && n.key == ms[i].key;
      var j :| 0 <= j < |ns| && ns[j] == n;
      assert e == Entry(ns[j].key, TextOf(SortJson(ns[j].value)));
    }
  }

  lemma {:induction false} SameEntriesText(ms: seq<Member>, ns: seq<Member>)
    requires DistinctKeys(ms) && DistinctKeys(ns) && multiset(Entries(ms)) == multiset(Entries(ns))
    ensures TextOf(SortJson(Obj(ms))) == TextOf(SortJson(Obj(ns)))
  {
    hide Enumerated, FilterMap, Sort, Filter, Entries, EntriesText, MembersText, Quoted, DistinctKeys;
    var xs, ys := SortValues(ms), SortValues(ns);
    EntryOrderIsTotal();
    PrintArranged(xs);
    PrintArranged(ys);
    EntriesSeparate(ms);
    SortIgnoresOrder(EntryKeyFirst, Entries(ms), Entries(ns));
    SameArrangedEntries(ms, ns);
    MembersTextIsEntries(Arranged(xs), true);
    MembersTextIsEntries(Arranged(ys), true);
  }

  lemma {:induction false} SameArrangedEntries(ms: seq<Member>, ns: seq<Member>)
    requires Sort(EntryKeyFirst, Entries(ms)) == Sort(EntryKeyFirst, Entries(ns))
    ensures ArrangedEntries(FilterMap(Print, SortValues(ms))) == ArrangedEntries(FilterMap(Print, SortValues(ns)))
  {
  }

  lemma {:induction false} EntriesSeparate(ms: seq<Member>)
    requires DistinctKeys(ms)
    ensures Separates(EntryKeyFirst, Entries(ms))
  {
    hide Entries;
    EntriesSpec(ms);
    forall x, y | x in Entries(ms) && y in Entries(ms) && EntryKeyFirst(x, y) && EntryKeyFirst(y, x)
      ensures x == y
    {
      TextLeOrders(x.key, y.key, []);
      var i :| 0 <= i < |Entries(ms)| && Entries(ms)[i] == x;
      var j :| 0 <= j < |Entries(ms)| && Entries(ms)[j] == y;
    }
  }

  // ---------------------------------------------------------------- main results

  /** Two values have the same canonical text exactly when they carry the same value, that is,
      when they are equal up to the order of keys at every depth and up to members that are
      `undefined` or named "__proto__". */
  lemma {:induction false} CanonicalText(a: Json, b: Json)
    requires WellFormed(a) && WellFormed(b)
    ensures CanonJson(a) == CanonJson(b) <==> MeanTop(a) == MeanTop(b)
  {
    SortKeepsWellFormed(a);
    SortKeepsWellFormed(b);
    SortPreservesMeaning(a);
    SortPreservesMeaning(b);
    if CanonJson(a) == CanonJson(b) {
      StringifyDetermines(SortJson(a), SortJson(b));
    }
    if MeanTop(a) == MeanTop(b) && a != Undefined {
      SameMeaningSameText(a, b);
    }
  }

  /** Sorting twice is sorting once. */
  lemma {:induction false} SortJsonIdempotent(v: Json)
    requires WellFormed(v)
    ensures SortJson(SortJson(v)) == SortJson(v)
    decreases v
  {
    match v
    case Arr(items) =>
      forall i | 0 <= i < |items|
        ensures SortItems(SortItems(items))[i] == SortItems(items)[i]
      {
        SortItemsAt(items, i);
        SortItemsAt(SortItems(items), i);
        SortJsonIdempotent(items[i]);
      }
    case Obj(ms) =>
      var vs := SortValues(ms);
      var rs := Arranged(vs);
      ArrangedMembers(vs);
      SortValuesDistinct(ms);
      forall k | 0 <= k < |rs|
        ensures SortValues(rs)[k] == rs[k]
      {
        assert rs[k] in rs;
        var i :| 0 <= i < |vs| && vs[i] == rs[k];
        SortValuesAt(ms, i);
        SortValuesAt(rs, k);
        SortJsonIdempotent(ms[i].value);
      }
      assert SortValues(rs) == rs;
      ArrangedTwice(vs);
    case _ =>
  }

  lemma {:induction false} ArrangedTwice(vs: seq<Member>)
    requires DistinctKeys(vs)
    ensures Arranged(Arranged(vs)) == Arranged(vs)
  {
    KeyOrdersAreTotal();
    var kept := Filter(IsAssignable, vs);
    var sorted := Sort(KeyFirst, kept);
    ArrangedPermutes(vs);
    FilterIn(IsAssignable, vs);
    FilterSort(KeyFirst, IsAssignable, vs);
    FilterWithin(IsAssignable, vs);
    DistinctKeysSub(vs, kept);
    KeysSeparate(kept);
    SortIgnoresOrder(KeyFirst, kept, Arranged(vs));
    SortSorts(KeyFirst, kept);
    FilterAll(IsAssignable, sorted);
  }

  lemma {:induction false} KeysSeparate(ms: seq<Member>)
    requires DistinctKeys(ms)
    ensures Separates(KeyFirst, ms)
  {
    forall x, y | x in ms && y in ms && KeyFirst(x, y) && KeyFirst(y, x)
      ensures x == y
    {
      TextLeOrders(x.key, y.key, []);
      var i :| 0 <= i < |ms| && ms[i] == x;
      var j :| 0 <= j < |ms| && ms[j] == y;
    }
  }

  /** A member named "__proto__" is lost on the way: {"__proto__": true} prints as {}. */
  lemma {:induction false} ProtoMemberIsLost()
    ensures var v := Obj([Member([95, 95, 112, 114, 111, 116, 111, 95, 95], Bool(true))]);
      && WellFormed(v) && v != Obj([])
      && CanonJson(v) == CanonJson(Obj([])) == Some([OPEN_BRACE, CLOSE_BRACE])
  {
    var m := Member(PROTO, Bool(true));
    assert [m][1..] == [];
    assert SortValues([m]) == [m];
    assert Sort(KeyFirst, [m]) == [m];
    assert Filter(IsAssignable, [m]) == [];
    assert Enumerated([]) == [];
    assert SortJson(Obj([m])) == Obj([]) && SortJson(Obj([])) == Obj([]);
    assert TextOf(Obj([])) == [OPEN_BRACE] + [CLOSE_BRACE];
    var braces: Text := [OPEN_BRACE, CLOSE_BRACE];
    assert TextOf(Obj([])) == braces;
    assert CanonJson(Obj([])) == Some(braces);
  }
}
