/** Checkout counters, the bounded latency window and its percentile (backend/src/config/metrics.py). */
module CheckoutMetrics {
  import opened Basics
  import opened StableSort

  const WINDOW: nat := 5000

  datatype Checkout = Checkout(ok: bool, reason: string, durationMs: nat)

  // ---------------------------------------------------------------- percentile

  predicate IntLe(a: int, b: int) { a <= b }

  /** Python's `round`: ties go to the even neighbour. */
  function RoundHalfEven(x: real): int {
    var f := x.Floor;
    var d := x - f as real;
    if d < 0.5 then f else if d > 0.5 then f + 1 else if f % 2 == 0 then f else f + 1
  }

  function MinOf(values: seq<int>): int
    requires values != []
  {
    if |values| == 1 then values[0] else var m := MinOf(values[1..]); if values[0] <= m then values[0] else m
  }

  function MaxOf(values: seq<int>): int
    requires values != []
  {
    if |values| == 1 then values[0] else var m := MaxOf(values[1..]); if values[0] >= m then values[0] else m
  }

  function Clamp(i: int, n: nat): nat
    requires n > 0
  {
    if i < 0 then 0 else if i > n - 1 then n - 1 else i
  }

  /** The unclamped index. */
  function RawIndex(n: nat, q: real): int {
    Scaled((n - 1) as real, q)
  }

  function Scaled(m: real, q: real): int {
    RoundHalfEven(m * q)
  }

  function Percentile(values: seq<int>, q: real): Option<int> {
    if values == [] then None
    else if q <= 0.0 then Some(MinOf(values))
    else if q >= 1.0 then Some(MaxOf(values))
    else
      SortLength(values);
      Some(Sort(IntLe, values)[Clamp(RawIndex(|values|, q), |values|)])
  }

  lemma {:induction false} SortLength(values: seq<int>)
    ensures |Sort(IntLe, values)| == |values|
    ensures TotalPreorder(IntLe)
  {
    SortSorts(IntLe, values);
  }

  /** The nearest integer; halfway between two, the even one. */
  lemma {:induction false} RoundIsNearest(x: real)
    ensures var r := RoundHalfEven(x);
      && -0.5 <= r as real - x <= 0.5 && (r as real - x == 0.5 || r as real - x == -0.5 ==> r % 2 == 0)
  {
  }

  lemma {:induction false} RoundMonotone(x: real, y: real)
    requires x <= y
    ensures RoundHalfEven(x) <= RoundHalfEven(y)
  {
  }

  lemma {:induction false} RoundBounds(x: real, n: int)
    requires 0.0 <= x <= n as real
    ensures 0 <= RoundHalfEven(x) <= n
  {
  }

  lemma {:induction false} ScaledBounds(m: real, q: real)
    requires m >= 0.0 && m == m.Floor as real && 0.0 < q < 1.0
    ensures 0 <= Scaled(m, q) <= m.Floor
  {
    assert 0.0 <= m * q <= m;
    RoundBounds(m * q, m.Floor);
  }

  /** For 0 < q < 1 the clamp is never needed. */
  lemma {:induction false} ClampNeverNeeded(n: nat, q: real)
    requires n > 0 && 0.0 < q < 1.0
    ensures 0 <= RawIndex(n, q) <= n - 1
    ensures Clamp(RawIndex(n, q), n) == RawIndex(n, q)
  {
    ScaledBounds((n - 1) as real, q);
  }

  /** The rank that a percentile returns, for every q. */
  function Rank(n: nat, q: real): nat
    requires n > 0
  {
    if q <= 0.0 then 0 else if q >= 1.0 then n - 1 else Clamp(RawIndex(n, q), n)
  }

  lemma {:induction false} RealScale(m: real, q: real, q': real)
    requires m >= 0.0 && q <= q'
    ensures m * q <= m * q'
  {
  }

  lemma {:induction false} ScaledMonotone(m: real, q: real, q': real)
    requires m >= 0.0 && q <= q'
    ensures Scaled(m, q) <= Scaled(m, q')
  {
    hide RoundHalfEven;
    RealScale(m, q, q');
    RoundMonotone(m * q, m * q');
  }

  lemma {:induction false} RankMonotone(n: nat, q: real, q': real)
    requires n > 0 && q <= q'
    ensures Rank(n, q) <= Rank(n, q') < n
  {
    hide Scaled;
    ScaledMonotone((n - 1) as real, q, q');
  }

  lemma {:induction false} EndsOfSorted(values: seq<int>)
    requires values != []
    ensures |Sort(IntLe, values)| == |values|
    ensures MinOf(values) == Sort(IntLe, values)[0] && MaxOf(values) == Sort(IntLe, values)[|values| - 1]
  {
    var s := Sort(IntLe, values);
    SortLength(values);
    SortSorts(IntLe, values);
    MinMaxSpec(values);
    assert s[0] in s && s[|s| - 1] in s;
    var i :| 0 <= i < |s| && s[i] == MinOf(values);
    var j :| 0 <= j < |s| && s[j] == MaxOf(values);
    assert i == 0 || IntLe(s[0], s[i]);
    assert j == |s| - 1 || IntLe(s[j], s[|s| - 1]);
  }

  lemma {:induction false} MinMaxSpec(values: seq<int>)
    requires values != []
    ensures MinOf(values) in values && MaxOf(values) in values
    ensures forall v :: v in values ==> MinOf(values) <= v <= MaxOf(values)
  {
    if |values| > 1 {
      MinMaxSpec(values[1..]);
      assert values == [values[0]] + values[1..];
    } else {
      assert values == [values[0]];
    }
  }

  /** A percentile is the element of that rank among the sorted samples. */
  lemma {:induction false} PercentileIsRanked(values: seq<int>, q: real)
    requires values != []
    ensures |Sort(IntLe, values)| == |values| && Rank(|values|, q) < |values|
    ensures Percentile(values, q) == Some(Sort(IntLe, values)[Rank(|values|, q)])
  {
    EndsOfSorted(values);
  }

  function AtMost(p: int): int -> bool {
    (v: int) => v <= p
  }

  function AtLeast(p: int): int -> bool {
    (v: int) => v >= p
  }

  lemma {:induction false} PrefixCount(p: int -> bool, s: seq<int>, k: nat)
    requires k <= |s| && forall i :: 0 <= i < k ==> p(s[i])
    ensures |Filter(p, s)| >= k
  {
    FilterAll(p, s[..k]);
    FilterConcat(p, s[..k], s[k..]);
    assert s == s[..k] + s[k..];
  }

  lemma {:induction false} SuffixCount(p: int -> bool, s: seq<int>, k: nat)
    requires k <= |s| && forall i :: k <= i < |s| ==> p(s[i])
    ensures |Filter(p, s)| >= |s| - k
  {
    FilterAll(p, s[k..]);
    FilterConcat(p, s[..k], s[k..]);
    assert s == s[..k] + s[k..];
  }

  lemma {:induction false} CountUnsorted(p: int -> bool, values: seq<int>)
    ensures |Filter(p, Sort(IntLe, values))| == |Filter(p, values)|
  {
    SortLength(Filter(p, values));
    FilterSort(IntLe, p, values);
  }

  /** The rank is the integer nearest to (n - 1) * q, halfway the even one. */
  lemma {:induction false} RankIsNearest(n: nat, q: real)
    requires n > 0
    ensures q <= 0.0 ==> Rank(n, q) == 0
    ensures q >= 1.0 ==> Rank(n, q) == n - 1
    ensures 0.0 < q < 1.0 ==>
      var r, x := Rank(n, q) as real, (n - 1) as real * q;
      -0.5 <= r - x <= 0.5 && (r - x == 0.5 || r - x == -0.5 ==> Rank(n, q) % 2 == 0)
  {
    hide RoundHalfEven;
    if 0.0 < q < 1.0 {
      ClampNeverNeeded(n, q);
      RoundIsNearest((n - 1) as real * q);
    }
  }

  /** With rank r, at least r + 1 samples are at most the percentile and at least n - r samples
      are at least it; and it is one of the samples. */
  lemma {:induction false} PercentileRank(values: seq<int>, q: real)
    requires values != []
    ensures var r := Rank(|values|, q);
      && Percentile(values, q).Some?
      && var p := Percentile(values, q).value;
         p in values && |Filter(AtMost(p), values)| >= r + 1 && |Filter(AtLeast(p), values)| >= |values| - r
  {
    hide Percentile, Rank, Filter, Sort;
    PercentileIsRanked(values, q);
    SortLength(values);
    SortSorts(IntLe, values);
    var s, r := Sort(IntLe, values), Rank(|values|, q);
    var p := s[r];
    assert p in s;
    assert forall i :: 0 <= i < r ==> IntLe(s[i], s[r]);
    assert forall i :: r < i < |s| ==> IntLe(s[r], s[i]);
    PrefixCount(AtMost(p), s, r + 1);
    SuffixCount(AtLeast(p), s, r);
    CountUnsorted(AtMost(p), values);
    CountUnsorted(AtLeast(p), values);
  }

  /** The order of the samples does not matter. */
  lemma {:induction false} PercentileIgnoresOrder(a: seq<int>, b: seq<int>, q: real)
    requires multiset(a) == multiset(b)
    ensures Percentile(a, q) == Percentile(b, q)
  {
    assert |a| == |multiset(a)| == |multiset(b)| == |b|;
    if a != [] {
      SortLength(a);
      SortIgnoresOrder(IntLe, a, b);
      PercentileIsRanked(a, q);
      PercentileIsRanked(b, q);
    }
  }

  /** A larger q never gives a smaller percentile. */
  lemma {:induction false} PercentileMonotone(values: seq<int>, q: real, q': real)
    requires values != [] && q <= q'
    ensures Percentile(values, q).value <= Percentile(values, q').value
  {
    PercentileIsRanked(values, q);
    PercentileIsRanked(values, q');
    RankMonotone(|values|, q, q');
    SortSorts(IntLe, values);
    var s, i, j := Sort(IntLe, values), Rank(|values|, q), Rank(|values|, q');
    assert i == j || IntLe(s[i], s[j]);
  }

  // ---------------------------------------------------------------- counters and window

  function Last<T>(s: seq<T>, n: nat): seq<T> {
    if |s| <= n then s else s[|s| - n..]
  }

  /** `append` on a deque with `maxlen` n: a full deque drops its oldest element. */
  function Pushed<T>(window: seq<T>, x: T, n: nat): seq<T>
    requires n > 0
  {
    if |window| == n then window[1..] + [x] else window + [x]
  }

  lemma {:induction false} LastIsShort<T>(s: seq<T>, n: nat)
    ensures |Last(s, n)| <= n
  {
  }

  lemma {:induction false} WindowAppend<T>(s: seq<T>, x: T, n: nat)
    requires n > 0
    ensures Last(s + [x], n) == Pushed(Last(s, n), x, n)
  {
  }

  function Durations(history: seq<Checkout>): (d: seq<int>)
    ensures |d| == |history|
  {
    if history == [] then [] else Durations(history[..|history| - 1]) + [history[|history| - 1].durationMs]
  }

  function CountOk(history: seq<Checkout>, ok: bool): nat {
    if history == [] then 0
    else CountOk(history[..|history| - 1], ok) + (if history[|history| - 1].ok == ok then 1 else 0)
  }

  function CountReason(history: seq<Checkout>, reason: string): nat {
    if history == [] then 0
    else
      var last := history[|history| - 1];
      CountReason(history[..|history| - 1], reason)
      + (if !last.ok && reason != "" && last.reason == reason then 1 else 0)
  }

  lemma {:induction false} HistoryAppend(before: seq<Checkout>, c: Checkout)
    ensures var after := before + [c];
      && (forall ok :: CountOk(after, ok) == CountOk(before, ok) + (if c.ok == ok then 1 else 0))
      && (forall r :: CountReason(after, r)
                   == CountReason(before, r) + (if !c.ok && r != "" && c.reason == r then 1 else 0))
      && Durations(after) == Durations(before) + [c.durationMs as int]
  {
  }

  function Tally(counts: map<string, nat>, key: string): nat {
    if key in counts then counts[key] else 0
  }

  lemma {:induction false} TallyBump(counts: map<string, nat>, key: string)
    ensures forall r :: Tally(counts[key := Tally(counts, key) + 1], r) == Tally(counts, r) + (if r == key then 1 else 0)
  {
  }

  class Metrics {
    var total: nat
    var ok: nat
    var error: nat
    var errorByReason: map<string, nat>
    var latencyMs: seq<int>
    ghost var history: seq<Checkout>

    /** The counters and the window are those of the whole history of checkouts. */
    ghost predicate Valid()
      reads this
    {
      && total == |history|
      && ok == CountOk(history, true) && error == CountOk(history, false) && total == ok + error
      && (forall r :: Tally(errorByReason, r) == CountReason(history, r))
      && latencyMs == Last(Durations(history), WINDOW)
    }

    constructor ()
      ensures Valid() && history == []
    {
      total, ok, error := 0, 0, 0;
      errorByReason := map[];
      latencyMs := [];
      history := [];
    }

    /** `record_pos_checkout`, with the elapsed time in seconds. */
    method RecordPosCheckout(succeeded: bool, reason: string, elapsedSeconds: real)
      requires Valid()
      modifies this
      ensures Valid()
      ensures history == old(history) + [Checkout(succeeded, reason, DurationMs(elapsedSeconds))]
      ensures total == old(total) + 1
      ensures ok == old(ok) + (if succeeded then 1 else 0) && error == old(error) + (if succeeded then 0 else 1)
      ensures forall r :: (if r in errorByReason then errorByReason[r] else 0)
                       == (if r in old(errorByReason) then old(errorByReason)[r] else 0)
                          + (if !succeeded && reason != "" && r == reason then 1 else 0)
      ensures |old(latencyMs)| <= 5000 && |latencyMs| <= 5000
      ensures latencyMs == (if |old(latencyMs)| == 5000 then old(latencyMs)[1..] else old(latencyMs)) + [DurationMs(elapsedSeconds)]
    {
      var durationMs := DurationMs(elapsedSeconds);
      ghost var c := Checkout(succeeded, reason, durationMs);
      ghost var before := history;
      hide CountOk, CountReason, Durations, Last, DurationMs;
      LastIsShort(Durations(history), WINDOW);
      LastIsShort(Durations(history + [c]), WINDOW);
      HistoryAppend(before, c);
      total := total + 1;
      if succeeded {
        ok := ok + 1;
      } else {
        error := error + 1;
        if reason != "" {
          TallyBump(errorByReason, reason);
          errorByReason := errorByReason[reason := Tally(errorByReason, reason) + 1];
        }
      }
      latencyMs := Pushed(latencyMs, durationMs, WINDOW);
      history := history + [c];
      WindowAppend(Durations(before), durationMs as int, WINDOW);
    }

    /** `checkout_latency_p95_ms` of `snapshot`. */
    method LatencyP95() returns (p: Option<int>)
      requires Valid()
      ensures p == Percentile(Last(Durations(history), WINDOW), 0.95)
    {
      p := Percentile(latencyMs, 0.95);
    }
  }

  /** `max(0, int(elapsed * 1000))`: truncation toward zero, then no negative value. */
  function DurationMs(elapsedSeconds: real): nat {
    var ms := elapsedSeconds * 1000.0;
    if ms < 0.0 then 0 else ms.Floor
  }

  /** Whole milliseconds, cut off; never negative. */
  lemma {:induction false} DurationIs(elapsedSeconds: real)
    ensures elapsedSeconds <= 0.0 ==> DurationMs(elapsedSeconds) == 0
    ensures elapsedSeconds >= 0.0 ==>
              DurationMs(elapsedSeconds) as real <= elapsedSeconds * 1000.0 < DurationMs(elapsedSeconds) as real + 1.0
  {
  }
}
