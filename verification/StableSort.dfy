/**
 Stable sorting, as `Array.prototype.sort` (ECMA-262, section 23.1.3.30) and Python's
 `list.sort` promise it: the result is ordered, and elements that the order does not
 separate keep their relative places.  `SortedStableIsUnique` shows that these two facts
 leave only one possible result, so nothing below depends on the algorithm chosen here.
 */
module StableSort {
  import opened Basics

  ghost predicate TotalPreorder<T(!new)>(le: (T, T) -> bool) {
    && (forall x, y :: le(x, y) || le(y, x))
    && (forall x, y, z :: le(x, y) && le(y, z) ==> le(x, z))
  }

  ghost predicate Sorted<T>(le: (T, T) -> bool, s: seq<T>) {
    forall i, j :: 0 <= i < j < |s| ==> le(s[i], s[j])
  }

  /** No two different elements of `s` are tied under `le`. */
  ghost predicate Separates<T>(le: (T, T) -> bool, s: seq<T>) {
    forall x, y :: x in s && y in s && le(x, y) && le(y, x) ==> x == y
  }

  function Insert<T>(le: (T, T) -> bool, x: T, s: seq<T>): seq<T> {
    if s == [] || le(x, s[0]) then [x] + s else [s[0]] + Insert(le, x, s[1..])
  }

  function Sort<T>(le: (T, T) -> bool, s: seq<T>): seq<T> {
    if s == [] then [] else Insert(le, s[0], Sort(le, s[1..]))
  }

  function Filter<T>(p: T -> bool, s: seq<T>): seq<T> {
    if s == [] then [] else (if p(s[0]) then [s[0]] else []) + Filter(p, s[1..])
  }

  /** The elements tied with `c`. */
  function Tied<T>(le: (T, T) -> bool, c: T): T -> bool {
    x => le(x, c) && le(c, x)
  }

  // ---------------------------------------------------------------- Filter

  lemma {:induction false} FilterIn<T>(p: T -> bool, s: seq<T>)
    ensures forall x :: x in Filter(p, s) <==> x in s && p(x)
    ensures |Filter(p, s)| <= |s|
  {
    if s != [] {
      FilterIn(p, s[1..]);
    }
  }

  lemma {:induction false} FilterCons<T>(p: T -> bool, x: T, s: seq<T>)
    ensures Filter(p, [x] + s) == (if p(x) then [x] else []) + Filter(p, s)
  {
  }

  lemma {:induction false} FilterConcat<T>(p: T -> bool, a: seq<T>, b: seq<T>)
    ensures Filter(p, a + b) == Filter(p, a) + Filter(p, b)
  {
    if a == [] {
      assert a + b == b;
    } else {
      FilterCons(p, a[0], a[1..] + b);
      assert a + b == [a[0]] + (a[1..] + b);
      FilterConcat(p, a[1..], b);
    }
  }

  lemma {:induction false} FilterAll<T>(p: T -> bool, s: seq<T>)
    requires forall x :: x in s ==> p(x)
    ensures Filter(p, s) == s
  {
    if s != [] {
      FilterAll(p, s[1..]);
    }
  }

  lemma {:induction false} FilterNone<T>(p: T -> bool, s: seq<T>)
    requires forall x :: x in s ==> !p(x)
    ensures Filter(p, s) == []
  {
    if s != [] {
      FilterNone(p, s[1..]);
    }
  }

  lemma {:induction false} FilterSame<T(!new)>(p: T -> bool, q: T -> bool, s: seq<T>)
    requires forall x :: p(x) == q(x)
    ensures Filter(p, s) == Filter(q, s)
  {
    if s != [] {
      FilterSame(p, q, s[1..]);
    }
  }

  lemma {:induction false} FilterMultiset<T>(p: T -> bool, s: seq<T>, x: T)
    ensures multiset(Filter(p, s))[x] == if p(x) then multiset(s)[x] else 0
  {
    if s != [] {
      assert s == [s[0]] + s[1..];
      FilterMultiset(p, s[1..], x);
    }
  }

  lemma {:induction false} FilterWithin<T>(p: T -> bool, s: seq<T>)
    ensures multiset(Filter(p, s)) <= multiset(s)
  {
    if s != [] {
      FilterWithin(p, s[1..]);
      assert s == [s[0]] + s[1..];
    }
  }

  lemma {:induction false} TakeWithin<T>(s: seq<T>, n: nat)
    ensures multiset(Take(s, n)) <= multiset(s)
    ensures forall x :: x in Take(s, n) ==> x in s
  {
    if |s| > n {
      assert s == s[..n] + s[n..];
    }
  }

  lemma {:induction false} FilterSorted<T(!new)>(le: (T, T) -> bool, p: T -> bool, s: seq<T>)
    requires Sorted(le, s)
    ensures Sorted(le, Filter(p, s))
  {
    if s != [] {
      FilterSorted(le, p, s[1..]);
      FilterIn(p, s[1..]);
      var rest := Filter(p, s[1..]);
      forall i | 0 <= i < |rest|
        ensures le(s[0], rest[i])
      {
        assert rest[i] in s[1..];
      }
    }
  }

  // ---------------------------------------------------------------- Sort

  lemma {:induction false} InsertMultiset<T>(le: (T, T) -> bool, x: T, s: seq<T>)
    ensures multiset(Insert(le, x, s)) == multiset(s) + multiset{x}
    ensures forall y :: y in Insert(le, x, s) ==> y == x || y in s
  {
    if s == [] || le(x, s[0]) {
    } else {
      InsertMultiset(le, x, s[1..]);
      assert s == [s[0]] + s[1..];
    }
  }

  lemma {:induction false} SortedCons<T(!new)>(le: (T, T) -> bool, h: T, t: seq<T>)
    requires Sorted(le, t) && forall y :: y in t ==> le(h, y)
    ensures Sorted(le, [h] + t)
  {
  }

  lemma {:induction false} InsertSorted<T(!new)>(le: (T, T) -> bool, x: T, s: seq<T>)
    requires TotalPreorder(le) && Sorted(le, s)
    ensures Sorted(le, Insert(le, x, s))
    ensures multiset(Insert(le, x, s)) == multiset(s) + multiset{x}
  {
    InsertMultiset(le, x, s);
    if s == [] {
    } else if le(x, s[0]) {
      SortedCons(le, x, s);
    } else {
      InsertSorted(le, x, s[1..]);
      InsertMultiset(le, x, s[1..]);
      SortedCons(le, s[0], Insert(le, x, s[1..]));
    }
  }

  lemma {:induction false} SortPermutes<T(!new)>(le: (T, T) -> bool, s: seq<T>)
    requires TotalPreorder(le)
    ensures Sorted(le, Sort(le, s))
    ensures multiset(Sort(le, s)) == multiset(s)
  {
    if s != [] {
      SortPermutes(le, s[1..]);
      InsertSorted(le, s[0], Sort(le, s[1..]));
      assert s == [s[0]] + s[1..];
    }
  }

  /** The result is ordered and is a permutation of the input. */
  lemma {:induction false} SortSorts<T(!new)>(le: (T, T) -> bool, s: seq<T>)
    requires TotalPreorder(le)
    ensures Sorted(le, Sort(le, s))
    ensures multiset(Sort(le, s)) == multiset(s)
    ensures |Sort(le, s)| == |s|
    ensures forall x :: x in Sort(le, s) <==> x in s
  {
    hide Sort, Sorted;
    SortPermutes(le, s);
    PermutationKeepsMembers(Sort(le, s), s);
    assert |multiset(Sort(le, s))| == |multiset(s)|;
  }

  lemma {:induction false} SortOfSorted<T(!new)>(le: (T, T) -> bool, s: seq<T>)
    requires Sorted(le, s)
    ensures Sort(le, s) == s
  {
    if s != [] {
      SortOfSorted(le, s[1..]);
    }
  }

  lemma {:induction false} FilterInsert<T(!new)>(le: (T, T) -> bool, p: T -> bool, x: T, s: seq<T>)
    requires TotalPreorder(le) && Sorted(le, s)
    ensures Filter(p, Insert(le, x, s)) == if p(x) then Insert(le, x, Filter(p, s)) else Filter(p, s)
  {
    if s == [] {
    } else if le(x, s[0]) {
      FilterIn(p, s);
      var kept := Filter(p, s);
      if kept != [] {
        assert kept[0] in s;
        assert le(x, kept[0]);
      }
      FilterCons(p, x, s);
    } else {
      FilterInsert(le, p, x, s[1..]);
      FilterCons(p, s[0], Insert(le, x, s[1..]));
      var kept := Filter(p, s[1..]);
      if p(s[0]) {
        assert ([s[0]] + kept)[1..] == kept;
        assert Insert(le, x, [s[0]] + kept) == [s[0]] + Insert(le, x, kept);
      } else {
        assert Filter(p, s) == kept;
      }
    }
  }

  /** Sorting commutes with selecting. */
  lemma {:induction false} FilterSort<T(!new)>(le: (T, T) -> bool, p: T -> bool, s: seq<T>)
    requires TotalPreorder(le)
    ensures Filter(p, Sort(le, s)) == Sort(le, Filter(p, s))
  {
    if s != [] {
      FilterSort(le, p, s[1..]);
      SortSorts(le, s[1..]);
      FilterInsert(le, p, s[0], Sort(le, s[1..]));
      var kept := Filter(p, s[1..]);
      if p(s[0]) {
        assert ([s[0]] + kept)[1..] == kept;
        assert Filter(p, s) == [s[0]] + kept;
      } else {
        assert Filter(p, s) == kept;
      }
    }
  }

  /** Stability: tied elements keep their relative order. */
  lemma {:induction false} SortStable<T(!new)>(le: (T, T) -> bool, c: T, s: seq<T>)
    requires TotalPreorder(le)
    ensures Filter(Tied(le, c), Sort(le, s)) == Filter(Tied(le, c), s)
  {
    var tied := Filter(Tied(le, c), s);
    FilterSort(le, Tied(le, c), s);
    FilterIn(Tied(le, c), s);
    assert Sorted(le, tied) by {
      forall i, j | 0 <= i < j < |tied|
        ensures le(tied[i], tied[j])
      {
        assert tied[i] in tied && tied[j] in tied;
        assert le(tied[i], c) && le(c, tied[j]);
      }
    }
    SortOfSorted(le, tied);
  }

  /** Order plus stability determine the result: there is only one stable sort. */
  lemma {:induction false} SortedStableIsUnique<T(!new)>(le: (T, T) -> bool, a: seq<T>, b: seq<T>)
    requires TotalPreorder(le) && Sorted(le, a) && Sorted(le, b)
    requires forall c :: Filter(Tied(le, c), a) == Filter(Tied(le, c), b)
    ensures a == b
  {
    if a == [] {
      HeadIsTied(le, b);
    } else if b == [] {
      HeadIsTied(le, a);
    } else {
      HeadIsLeast(le, a, b);
      HeadIsLeast(le, b, a);
      assert Filter(Tied(le, a[0]), a)[0] == a[0];
      assert Filter(Tied(le, a[0]), b)[0] == b[0];
      forall c
        ensures Filter(Tied(le, c), a[1..]) == Filter(Tied(le, c), b[1..])
      {
        assert Filter(Tied(le, c), a) == Filter(Tied(le, c), b);
        assert a[0] == b[0];
        var head := if Tied(le, c)(a[0]) then [a[0]] else [];
        assert Filter(Tied(le, c), a) == head + Filter(Tied(le, c), a[1..]);
        assert Filter(Tied(le, c), b) == head + Filter(Tied(le, c), b[1..]);
        assert Filter(Tied(le, c), a)[|head|..] == Filter(Tied(le, c), a[1..]);
        assert Filter(Tied(le, c), b)[|head|..] == Filter(Tied(le, c), b[1..]);
      }
      SortedStableIsUnique(le, a[1..], b[1..]);
    }
  }

  lemma {:induction false} HeadIsTied<T(!new)>(le: (T, T) -> bool, s: seq<T>)
    requires TotalPreorder(le)
    ensures s != [] ==> Filter(Tied(le, s[0]), s) != []
  {
  }

  lemma {:induction false} HeadIsLeast<T(!new)>(le: (T, T) -> bool, a: seq<T>, b: seq<T>)
    requires TotalPreorder(le) && Sorted(le, b) && a != [] && b != []
    requires Filter(Tied(le, a[0]), a) == Filter(Tied(le, a[0]), b)
    ensures le(b[0], a[0])
  {
    assert a[0] in Filter(Tied(le, a[0]), a);
    FilterIn(Tied(le, a[0]), b);
    assert a[0] in b;
    var k :| 0 <= k < |b| && b[k] == a[0];
  }

  /** When no two different elements are tied, the order of the input does not matter. */
  lemma {:induction false} SortIgnoresOrder<T(!new)>(le: (T, T) -> bool, a: seq<T>, b: seq<T>)
    requires TotalPreorder(le) && multiset(a) == multiset(b) && Separates(le, a)
    ensures Sort(le, a) == Sort(le, b)
  {
    SortSorts(le, a);
    SortSorts(le, b);
    SortedSeparatedIsUnique(le, Sort(le, a), Sort(le, b));
  }

  lemma {:induction false} SortedSeparatedIsUnique<T(!new)>(le: (T, T) -> bool, a: seq<T>, b: seq<T>)
    requires TotalPreorder(le) && Sorted(le, a) && Sorted(le, b)
    requires multiset(a) == multiset(b) && Separates(le, a)
    ensures a == b
  {
    hide TotalPreorder, Sorted, Separates;
    assert |multiset(a)| == |multiset(b)|;
    if a != [] {
      SameHead(le, a, b);
      SameTails(a, b);
      TailOrder(le, a);
      TailOrder(le, b);
      SortedSeparatedIsUnique(le, a[1..], b[1..]);
      assert a == [a[0]] + a[1..] && b == [b[0]] + b[1..];
    }
  }

  lemma {:induction false} SameTails<T>(a: seq<T>, b: seq<T>)
    requires multiset(a) == multiset(b) && a != [] && b != [] && a[0] == b[0]
    ensures multiset(a[1..]) == multiset(b[1..])
  {
    assert a == [a[0]] + a[1..] && b == [b[0]] + b[1..];
    assert multiset(a[1..]) == multiset(a) - multiset{a[0]};
  }

  lemma {:induction false} TailOrder<T>(le: (T, T) -> bool, s: seq<T>)
    requires s != []
    ensures Sorted(le, s) ==> Sorted(le, s[1..])
    ensures Separates(le, s) ==> Separates(le, s[1..])
  {
  }

  lemma {:induction false} SameHead<T(!new)>(le: (T, T) -> bool, a: seq<T>, b: seq<T>)
    requires TotalPreorder(le) && Sorted(le, a) && Sorted(le, b)
    requires multiset(a) == multiset(b) && Separates(le, a) && a != [] && b != []
    ensures a[0] == b[0]
  {
    assert a[0] in multiset(b) && b[0] in multiset(a);
    var i :| 0 <= i < |b| && b[i] == a[0];
    var j :| 0 <= j < |a| && a[j] == b[0];
    assert i == 0 || le(b[0], b[i]);
    assert j == 0 || le(a[0], a[j]);
    assert le(a[0], a[0]) && le(b[0], b[0]);
  }

  lemma {:induction false} PermutationKeepsMembers<T>(a: seq<T>, b: seq<T>)
    requires multiset(a) == multiset(b)
    ensures forall x :: x in a <==> x in b
  {
    forall x
      ensures x in a <==> x in b
    {
      assert x in multiset(a) <==> x in multiset(b);
    }
  }

  // ---------------------------------------------------------------- selecting and mapping at once

  function FilterMap<T, U>(f: T -> Option<U>, s: seq<T>): seq<U> {
    if s == [] then [] else (if f(s[0]).Some? then [f(s[0]).value] else []) + FilterMap(f, s[1..])
  }

  lemma {:induction false} FilterMapIn<T, U>(f: T -> Option<U>, s: seq<T>)
    ensures forall x :: x in s && f(x).Some? ==> f(x).value in FilterMap(f, s)
    ensures forall y :: y in FilterMap(f, s) ==> exists x :: x in s && f(x) == Some(y)
  {
    if s != [] {
      FilterMapIn(f, s[1..]);
      forall y | y in FilterMap(f, s)
        ensures exists x :: x in s && f(x) == Some(y)
      {
        if y in FilterMap(f, s[1..]) {
          var x :| x in s[1..] && f(x) == Some(y);
          assert x in s;
        } else {
          assert f(s[0]) == Some(y) && s[0] in s;
        }
      }
    }
  }

  lemma {:induction false} FilterMapCons<T, U>(f: T -> Option<U>, x: T, s: seq<T>)
    ensures FilterMap(f, [x] + s) == (if f(x).Some? then [f(x).value] else []) + FilterMap(f, s)
  {
  }

  lemma {:induction false} FilterMapConcat<T, U>(f: T -> Option<U>, a: seq<T>, b: seq<T>)
    ensures FilterMap(f, a + b) == FilterMap(f, a) + FilterMap(f, b)
  {
    if a == [] {
      assert a + b == b;
    } else {
      FilterMapCons(f, a[0], a[1..] + b);
      assert a + b == [a[0]] + (a[1..] + b);
      FilterMapConcat(f, a[1..], b);
    }
  }

  /** `f` carries the order `le` over to `le'`. */
  ghost predicate Carries<T(!new), U>(f: T -> Option<U>, le: (T, T) -> bool, le': (U, U) -> bool) {
    forall x, y :: f(x).Some? && f(y).Some? ==> (le(x, y) <==> le'(f(x).value, f(y).value))
  }

  lemma {:induction false} FilterMapInsert<T(!new), U>(f: T -> Option<U>, le: (T, T) -> bool, le': (U, U) -> bool, x: T, s: seq<T>)
    requires TotalPreorder(le) && Sorted(le, s) && Carries(f, le, le')
    ensures FilterMap(f, Insert(le, x, s))
         == if f(x).Some? then Insert(le', f(x).value, FilterMap(f, s)) else FilterMap(f, s)
  {
    if s == [] {
    } else if le(x, s[0]) {
      FilterMapCons(f, x, s);
      FilterMapIn(f, s);
      var kept := FilterMap(f, s);
      if kept != [] && f(x).Some? {
        assert kept[0] in kept;
        var y :| y in s && f(y) == Some(kept[0]);
        assert le(x, y);
      }
    } else {
      FilterMapInsert(f, le, le', x, s[1..]);
      FilterMapCons(f, s[0], Insert(le, x, s[1..]));
      var kept := FilterMap(f, s[1..]);
      if f(s[0]).Some? {
        var y := f(s[0]).value;
        assert ([y] + kept)[1..] == kept;
        if f(x).Some? {
          assert Insert(le', f(x).value, [y] + kept) == [y] + Insert(le', f(x).value, kept);
        }
      } else {
        assert FilterMap(f, s) == kept;
      }
    }
  }

  /** Sorting commutes with selecting and mapping. */
  lemma {:induction false} FilterMapSort<T(!new), U>(f: T -> Option<U>, le: (T, T) -> bool, le': (U, U) -> bool, s: seq<T>)
    requires TotalPreorder(le) && Carries(f, le, le')
    ensures FilterMap(f, Sort(le, s)) == Sort(le', FilterMap(f, s))
  {
    if s != [] {
      FilterMapSort(f, le, le', s[1..]);
      SortSorts(le, s[1..]);
      FilterMapInsert(f, le, le', s[0], Sort(le, s[1..]));
      var kept := FilterMap(f, s[1..]);
      if f(s[0]).Some? {
        var y := f(s[0]).value;
        assert ([y] + kept)[1..] == kept;
        assert FilterMap(f, s) == [y] + kept;
      } else {
        assert FilterMap(f, s) == kept;
      }
    }
  }

  /** Selecting by a property that `f` carries over commutes with it. */
  lemma {:induction false} FilterMapFilter<T(!new), U>(f: T -> Option<U>, p: T -> bool, q: U -> bool, s: seq<T>)
    requires forall x :: f(x).Some? ==> p(x) == q(f(x).value)
    ensures FilterMap(f, Filter(p, s)) == Filter(q, FilterMap(f, s))
  {
    if s != [] {
      FilterMapFilter(f, p, q, s[1..]);
      if p(s[0]) {
        FilterMapCons(f, s[0], Filter(p, s[1..]));
      }
      if f(s[0]).Some? {
        FilterCons(q, f(s[0]).value, FilterMap(f, s[1..]));
      }
      assert p(s[0]) || Filter(p, s) == Filter(p, s[1..]);
      assert f(s[0]).Some? || FilterMap(f, s) == FilterMap(f, s[1..]);
    }
  }

  /** Sequences without repetition and with the same members are permutations of each other. */
  lemma {:induction false} SameMembersSameMultiset<T>(a: seq<T>, b: seq<T>)
    requires forall i, j :: 0 <= i < j < |a| ==> a[i] != a[j]
    requires forall i, j :: 0 <= i < j < |b| ==> b[i] != b[j]
    requires forall x :: x in a <==> x in b
    ensures multiset(a) == multiset(b)
  {
    forall x
      ensures multiset(a)[x] == multiset(b)[x]
    {
      OnceEach(a, x);
      OnceEach(b, x);
    }
  }

  lemma {:induction false} OnceEach<T>(s: seq<T>, x: T)
    requires forall i, j :: 0 <= i < j < |s| ==> s[i] != s[j]
    ensures multiset(s)[x] == if x in s then 1 else 0
  {
    if s != [] {
      assert s == [s[0]] + s[1..];
      OnceEach(s[1..], x);
    }
  }

  /** An element counted twice stands at two places. */
  lemma {:induction false} TwoPlaces<T>(s: seq<T>, x: T)
    ensures multiset(s)[x] >= 2 <==> exists i, j :: 0 <= i < j < |s| && s[i] == x && s[j] == x
    ensures multiset(s)[x] >= 1 <==> x in s
  {
    if s != [] {
      var t := s[1..];
      assert s == [s[0]] + t;
      TwoPlaces(t, x);
      if multiset(t)[x] >= 2 {
        var i, j :| 0 <= i < j < |t| && t[i] == x && t[j] == x;
        assert s[i + 1] == x && s[j + 1] == x;
      } else if s[0] == x && x in t {
        var j :| 0 <= j < |t| && t[j] == x;
        assert s[j + 1] == x;
      }
      forall i, j | 0 <= i < j < |s| && s[i] == x && s[j] == x
        ensures multiset(s)[x] >= 2
      {
        assert t[j - 1] == x;
        if i > 0 {
          assert t[i - 1] == x;
        }
      }
    }
  }

  lemma {:induction false} PermutationKeepsDistinct<T>(a: seq<T>, b: seq<T>)
    requires multiset(a) == multiset(b)
    requires forall i, j :: 0 <= i < j < |a| ==> a[i] != a[j]
    ensures forall i, j :: 0 <= i < j < |b| ==> b[i] != b[j]
  {
    forall i, j | 0 <= i < j < |b|
      ensures b[i] != b[j]
    {
      TwoPlaces(b, b[i]);
      OnceEach(a, b[i]);
    }
  }
}
