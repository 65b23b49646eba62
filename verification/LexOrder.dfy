/** Lexicographic order of sequences, as JavaScript and Python compare texts. */
module LexOrder {

  ghost predicate StrictTotal<T(!new)>(lt: (T, T) -> bool) {
    && (forall x, y :: lt(x, y) || lt(y, x) || x == y)
    && (forall x, y :: !(lt(x, y) && lt(y, x)))
    && (forall x :: !lt(x, x))
    && (forall x, y, z :: lt(x, y) && lt(y, z) ==> lt(x, z))
  }

  predicate LexLe<T(==)>(lt: (T, T) -> bool, a: seq<T>, b: seq<T>) {
    a == [] || (b != [] && (lt(a[0], b[0]) || (a[0] == b[0] && LexLe(lt, a[1..], b[1..]))))
  }

  lemma {:induction false} LexLeIsTotalOrder<T(!new)>(lt: (T, T) -> bool, a: seq<T>, b: seq<T>, c: seq<T>)
    requires StrictTotal(lt)
    ensures LexLe(lt, a, b) || LexLe(lt, b, a)
    ensures LexLe(lt, a, b) && LexLe(lt, b, a) ==> a == b
    ensures LexLe(lt, a, b) && LexLe(lt, b, c) ==> LexLe(lt, a, c)
    decreases |a|
  {
    if a != [] && b != [] && a[0] == b[0] {
      LexLeIsTotalOrder(lt, a[1..], b[1..], if c == [] then [] else c[1..]);
      assert a == [a[0]] + a[1..] && b == [b[0]] + b[1..];
    }
  }

  predicate CharLt(a: char, b: char) { a < b }

  /** Python's order of strings, by code points. */
  predicate StringLe(a: string, b: string) {
    LexLe(CharLt, a, b)
  }

  lemma {:induction false} StringLeIsTotalOrder(a: string, b: string, c: string)
    ensures StringLe(a, b) || StringLe(b, a)
    ensures StringLe(a, b) && StringLe(b, a) ==> a == b
    ensures StringLe(a, b) && StringLe(b, c) ==> StringLe(a, c)
  {
    LexLeIsTotalOrder(CharLt, a, b, c);
  }

  /** A prefix comes first, otherwise the first difference decides. */
  ghost predicate FirstDifference<T>(lt: (T, T) -> bool, a: seq<T>, b: seq<T>) {
    a <= b || exists k :: 0 <= k < |a| && k < |b| && a[..k] == b[..k] && lt(a[k], b[k])
  }

  lemma {:induction false} LexLeMeans<T>(lt: (T, T) -> bool, a: seq<T>, b: seq<T>)
    ensures LexLe(lt, a, b) <==> FirstDifference(lt, a, b)
    decreases |a|
  {
    if a != [] && b != [] {
      if a[0] == b[0] {
        LexLeMeans(lt, a[1..], b[1..]);
        SkipHead(lt, a, b);
      }
      if a[0] != b[0] {
        HeadDecides(lt, a, b);
      }
    }
  }

  lemma {:induction false} SkipHead<T>(lt: (T, T) -> bool, a: seq<T>, b: seq<T>)
    requires a != [] && b != [] && a[0] == b[0]
    ensures FirstDifference(lt, a, b) <==> lt(a[0], b[0]) || FirstDifference(lt, a[1..], b[1..])
  {
    var s, t := a[1..], b[1..];
    assert a == [a[0]] + s && b == [b[0]] + t;
    if k :| 0 <= k < |s| && k < |t| && s[..k] == t[..k] && lt(s[k], t[k]) {
      assert a[..k + 1] == [a[0]] + s[..k] && b[..k + 1] == [b[0]] + t[..k];
      assert lt(a[k + 1], b[k + 1]);
    }
    if lt(a[0], b[0]) {
      assert a[..0] == b[..0];
    }
    if k :| 0 < k < |a| && k < |b| && a[..k] == b[..k] && lt(a[k], b[k]) {
      assert s[..k - 1] == a[..k][1..] && t[..k - 1] == b[..k][1..];
      assert lt(s[k - 1], t[k - 1]);
    }
  }

  lemma {:induction false} HeadDecides<T>(lt: (T, T) -> bool, a: seq<T>, b: seq<T>)
    requires a != [] && b != [] && a[0] != b[0]
    ensures FirstDifference(lt, a, b) <==> lt(a[0], b[0])
  {
    assert a[..0] == b[..0];
    forall k | 0 < k < |a| && k < |b|
      ensures a[..k] != b[..k]
    {
      assert a[..k][0] == a[0] && b[..k][0] == b[0];
    }
  }

  /** Strings are ordered by ascending code points. */
  lemma {:induction false} StringLeMeans(a: string, b: string)
    ensures StringLe(a, b) <==> a <= b || exists k :: 0 <= k < |a| && k < |b| && a[..k] == b[..k] && a[k] < b[k]
  {
    LexLeMeans(CharLt, a, b);
    if k :| 0 <= k < |a| && k < |b| && a[..k] == b[..k] && a[k] < b[k] {
      assert CharLt(a[k], b[k]);
    }
  }
}
