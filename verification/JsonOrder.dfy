/** In which order `sortJson` puts the keys of an object, in terms of code units and numbers alone. */
module JsonOrder {
  import opened JsonCanonical
  import opened JsonText
  import opened LexOrder
  import opened StableSort

  /** The decimal digits of a number, as code units. */
  function IndexText(n: nat): Text {
    if n < 10 then [48 + n] else IndexText(n / 10) + [48 + n % 10]
  }

  /** An array index of ECMA-262: below 2^32 - 1, in its own digits. */
  ghost predicate IsArrayIndex(t: Text) {
    exists n: nat :: n < 4_294_967_295 && t == IndexText(n)
  }

  lemma {:induction false} IndexTextSpec(n: nat)
    ensures IndexText(n) != [] && TextNumber(IndexText(n)) == n
    ensures forall i :: 0 <= i < |IndexText(n)| ==> 48 <= IndexText(n)[i] <= 57
    ensures IndexText(n)[0] == 48 <==> n == 0
    ensures n == 0 ==> |IndexText(n)| == 1
  {
    var t := IndexText(n);
    if n < 10 {
      assert t[..0] == [] && TextNumber([]) == 0;
    } else {
      IndexTextSpec(n / 10);
      assert t[..|t| - 1] == IndexText(n / 10);
      assert t[0] == IndexText(n / 10)[0];
    }
  }

  /** A canonical numeral is the text of its number. */
  lemma {:induction false} NumeralIsIndexText(t: Text)
    requires t != [] && forall i :: 0 <= i < |t| ==> IsDigit(t[i])
    requires t[0] == 48 ==> |t| == 1
    ensures t == IndexText(TextNumber(t))
    ensures t[0] != 48 ==> TextNumber(t) > 0
  {
    if |t| == 1 {
      assert t[..0] == [] && TextNumber([]) == 0;
    } else {
      var u := t[..|t| - 1];
      assert u[0] == t[0];
      NumeralIsIndexText(u);
      assert t == u + [t[|t| - 1]];
    }
  }

  lemma {:induction false} IndexExactly(t: Text)
    ensures IsIndex(t) <==> IsArrayIndex(t)
    ensures IsIndex(t) ==> t == IndexText(TextNumber(t))
  {
    if IsIndex(t) {
      NumeralIsIndexText(t);
    }
    if n: nat :| n < 4_294_967_295 && t == IndexText(n) {
      IndexTextSpec(n);
    }
  }

  /** The earlier key is a proper prefix of the later one, or has the smaller unit where they first differ. */
  ghost predicate ComesFirst(a: Text, b: Text) {
    a < b || exists k :: 0 <= k < |a| && k < |b| && a[..k] == b[..k] && a[k] as int < b[k] as int
  }

  lemma {:induction false} TextLeMeans(a: Text, b: Text)
    requires TextLe(a, b) && a != b
    ensures ComesFirst(a, b)
  {
    LexLeMeans(UnitLt, a, b);
    if !(a <= b) {
      var k :| 0 <= k < |a| && k < |b| && a[..k] == b[..k] && UnitLt(a[k], b[k]);
      assert a[k] as int < b[k] as int;
    }
  }

  /** The parts of a sorted object: array indices, then names, each part in order. */
  lemma {:induction false} PartsInOrder(vs: seq<Member>)
    ensures var kept := Filter(IsAssignable, Sort(KeyFirst, vs));
      var indices, names := Sort(IndexFirst, Filter(HasIndexKey, kept)), Filter(HasNameKey, kept);
      && Arranged(vs) == indices + names && Sorted(IndexFirst, indices) && Sorted(KeyFirst, names)
      && (forall m :: m in indices ==> HasIndexKey(m)) && (forall m :: m in names ==> HasNameKey(m))
  {
    KeyOrdersAreTotal();
    var kept := Filter(IsAssignable, Sort(KeyFirst, vs));
    SortSorts(KeyFirst, vs);
    FilterSorted(KeyFirst, IsAssignable, Sort(KeyFirst, vs));
    FilterSorted(KeyFirst, HasNameKey, kept);
    FilterIn(HasIndexKey, kept);
    FilterIn(HasNameKey, kept);
    SortSorts(IndexFirst, Filter(HasIndexKey, kept));
  }

  /** Array indices come first, in increasing numeric value; all other keys follow, in ascending
      order of their code units. */
  lemma {:induction false} KeysInOrder(ms: seq<Member>, i: nat, j: nat)
    requires WellFormed(Obj(ms)) && i < j < |SortJson(Obj(ms)).members|
    ensures var a, b := SortJson(Obj(ms)).members[i].key, SortJson(Obj(ms)).members[j].key;
      && (IsArrayIndex(b) ==> IsArrayIndex(a))
      && (forall m: nat, n: nat :: m < 4_294_967_295 && n < 4_294_967_295 && a == IndexText(m) && b == IndexText(n) ==> m < n)
      && (!IsArrayIndex(a) && !IsArrayIndex(b) ==>
            a < b || exists k :: 0 <= k < |a| && k < |b| && a[..k] == b[..k] && a[k] as int < b[k] as int)
  {
    hide Sort, Filter, IsIndex, IsArrayIndex, TextLe, WellFormed, SortValues;
    var vs := SortValues(ms);
    var rs := Arranged(vs);
    KeysDiffer(ms, i, j);
    PartsInOrder(vs);
    var kept := Filter(IsAssignable, Sort(KeyFirst, vs));
    var indices, names := Sort(IndexFirst, Filter(HasIndexKey, kept)), Filter(HasNameKey, kept);
    var a, b := rs[i].key, rs[j].key;
    IndexExactly(a);
    IndexExactly(b);
    if j < |indices| {
      assert rs[i] == indices[i] && rs[j] == indices[j] && rs[i] in indices && rs[j] in indices;
      assert IndexFirst(indices[i], indices[j]);
      NumbersDiffer(a, b);
    } else if i < |indices| {
      assert rs[i] == indices[i] && rs[i] in indices && rs[j] == names[j - |indices|] && rs[j] in names;
      NotIndexText(b);
    } else {
      assert rs[i] == names[i - |indices|] && rs[j] == names[j - |indices|] && rs[i] in names && rs[j] in names;
      assert KeyFirst(names[i - |indices|], names[j - |indices|]);
      TextLeMeans(a, b);
      NotIndexText(b);
    }
  }

  lemma {:induction false} NotIndexText(t: Text)
    requires !IsArrayIndex(t)
    ensures forall n: nat :: n < 4_294_967_295 ==> t != IndexText(n)
  {
  }

  lemma {:induction false} NumbersDiffer(a: Text, b: Text)
    requires a != b && a == IndexText(TextNumber(a)) && b == IndexText(TextNumber(b)) && TextNumber(a) <= TextNumber(b)
    ensures forall m: nat, n: nat :: a == IndexText(m) && b == IndexText(n) ==> m < n
  {
    forall m: nat, n: nat | a == IndexText(m) && b == IndexText(n)
      ensures m < n
    {
      IndexTextSpec(m);
      IndexTextSpec(n);
    }
  }

  lemma {:induction false} KeysDiffer(ms: seq<Member>, i: nat, j: nat)
    requires WellFormed(Obj(ms)) && i < j < |Arranged(SortValues(ms))|
    ensures Arranged(SortValues(ms))[i].key != Arranged(SortValues(ms))[j].key
  {
    SortValuesDistinct(ms);
  }
}
