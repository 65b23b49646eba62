/**
 The queue as a state machine.  Every call that touches the store is one atomic step;
 the steps of a drain are split at its `await`, so that enqueues and clears may land while
 the executor runs.  Beside the stored rows a world carries a ledger of what the executor
 was asked and answered; the ledger is history only, no step reads it.
 */
module PosQueueProtocol {
  import opened Basics
  import opened StableSort
  import opened PosQueue
  import opened PosQueueCompaction

  datatype Failure = Failure(at: nat, retryable: bool)

  /** Executor calls made, successes and failures answered, for one command id. */
  datatype Ledger = Ledger(calls: nat, wins: nat, failures: seq<Failure>)

  const BLANK: Ledger := Ledger(0, 0, [])

  datatype Drain = Idle | Running(due: seq<Command>, next: nat, awaiting: bool)

  datatype World = World(rows: seq<Command>, drain: Drain, clock: nat, used: set<string>, ledger: map<string, Ledger>)

  const INIT: World := World([], Idle, 0, {}, map[])

  datatype Event =
    | Enqueue(request: Request, id: string, now: nat)
    | Clear
    | Start(nowMs: Option<int>, maxCommands: Option<int>, at: nat)
    | Begin(updatedAt: nat)
    | Succeed(updatedAt: nat, processedAt: nat)
    | Fail(error: ExecutorError, updatedAt: nat, lastAttemptAt: nat, retryFrom: nat)
    | Finish

  function LedgerOf(ledger: map<string, Ledger>, id: string): Ledger {
    if id in ledger then ledger[id] else BLANK
  }

  /** `options.nowMs || Date.now()`. */
  function DrainNow(nowMs: Option<int>, clock: nat): int {
    if nowMs.Some? && nowMs.value != 0 then nowMs.value else clock
  }

  /** `Math.max(1, options.maxCommands || 20)`. */
  function DrainLimit(maxCommands: Option<int>): nat {
    var n := if maxCommands.Some? && maxCommands.value != 0 then maxCommands.value else 20;
    if n < 1 then 1 else n
  }

  /** The rows a drain takes: the oldest due ones. */
  function DueRows(rows: seq<Command>, nowMs: int, limit: nat): seq<Command> {
    Take(Sort(CreatedFirst, Filter(DueAt(nowMs), rows)), limit)
  }

  function Current(w: World): Command
    requires w.drain.Running? && w.drain.next < |w.drain.due|
  {
    w.drain.due[w.drain.next]
  }

  /** One drainer, fresh ids and a clock that does not run backwards. */
  predicate Enabled(w: World, e: Event) {
    match e
    case Enqueue(_, id, now) => w.clock <= now && id !in w.used
    case Clear => true
    case Start(_, _, at) => w.drain.Idle? && w.clock <= at
    case Begin(u) => w.drain.Running? && !w.drain.awaiting && w.drain.next < |w.drain.due| && w.clock <= u
    case Succeed(u, p) =>
      w.drain.Running? && w.drain.awaiting && w.drain.next < |w.drain.due| && w.clock <= u <= p
    case Fail(_, u, l, r) =>
      w.drain.Running? && w.drain.awaiting && w.drain.next < |w.drain.due| && w.clock <= u <= l <= r
    case Finish => w.drain.Running? && !w.drain.awaiting && w.drain.next == |w.drain.due|
  }

  function Apply(w: World, e: Event): World
    requires Enabled(w, e)
  {
    match e
    case Enqueue(q, id, now) =>
      var c := NewCommand(q, id, now);
      if c.dedupeKey == "" then w.(clock := now)
      else if FindActive(w.rows, c).Some? then w.(rows := EnqueueRows(w.rows, c), clock := now)
      else w.(rows := EnqueueRows(w.rows, c), clock := now, used := w.used + {id})
    case Clear => w.(rows := [])
    case Start(nowMs, limit, at) =>
      w.(drain := Running(DueRows(w.rows, DrainNow(nowMs, at), DrainLimit(limit)), 0, false),
         clock := at)
    case Begin(u) =>
      var id := Current(w).id;
      var l := LedgerOf(w.ledger, id);
      w.(rows := Compact(RewriteRow(w.rows, id, ToProcessing(u))),
         drain := w.drain.(awaiting := true),
         clock := u,
         ledger := w.ledger[id := l.(calls := l.calls + 1)])
    case Succeed(u, p) =>
      var id := Current(w).id;
      var l := LedgerOf(w.ledger, id);
      w.(rows := Compact(RewriteRow(w.rows, id, ToDone(u, p))),
         drain := w.drain.(next := w.drain.next + 1, awaiting := false),
         clock := p,
         ledger := w.ledger[id := l.(wins := l.wins + 1)])
    case Fail(error, u, last, r) =>
      var row := Current(w);
      var n := row.attempts + 1;
      var l := LedgerOf(w.ledger, row.id);
      w.(rows := Compact(RewriteRow(w.rows, row.id, FailureRewrite(error, n, u, last, r))),
         drain := w.drain.(next := w.drain.next + 1, awaiting := false),
         clock := r,
         ledger := w.ledger[row.id := l.(failures := l.failures + [Failure(u, IsRetryable(error))])])
    case Finish => w.(drain := Idle)
  }

  predicate Legal(w: World, es: seq<Event>)
    decreases es
  {
    es == [] || (Enabled(w, es[0]) && Legal(Apply(w, es[0]), es[1..]))
  }

  /** The world after a run. */
  function Exec(w: World, es: seq<Event>): World
    requires Legal(w, es)
    decreases es
  {
    if es == [] then w else Exec(Apply(w, es[0]), es[1..])
  }

  lemma {:induction false} ExecConcat(w: World, a: seq<Event>, b: seq<Event>)
    ensures Legal(w, a + b) <==> Legal(w, a) && Legal(Exec(w, a), b)
    ensures Legal(w, a + b) ==> Exec(w, a + b) == Exec(Exec(w, a), b)
    decreases a
  {
    if a == [] {
      assert a + b == b;
    } else {
      assert (a + b)[1..] == a[1..] + b;
      if Enabled(w, a[0]) {
        ExecConcat(Apply(w, a[0]), a[1..], b);
      }
    }
  }

  // ---------------------------------------------------------------- the invariant

  ghost predicate DistinctIds(rows: seq<Command>) {
    forall i, j :: 0 <= i < j < |rows| ==> rows[i].id != rows[j].id
  }

  /** At most one stored row that is not DONE per dedupe key, company and branch. */
  ghost predicate OneActivePerWork(rows: seq<Command>) {
    forall c, d :: c in rows && d in rows && IsActive(c) && IsActive(d) && SameWork(c, d) ==> c.id == d.id
  }

  /** The id the executor is working on. */
  function Awaited(d: Drain): Option<string> {
    if d.Running? && d.awaiting && d.next < |d.due| then Some(d.due[d.next].id) else None
  }

  function Bit(b: bool): nat {
    if b then 1 else 0
  }

  /** A stored row and the ledger of its id. */
  ghost predicate RowAgrees(c: Command, l: Ledger, awaited: Option<string>) {
    && l.calls == c.attempts + Bit(c.status == Done || c.status == Processing)
    && l.wins == Bit(c.status == Done)
    && |l.failures| == c.attempts
    && (c.status == Processing <==> awaited == Some(c.id))
    && (c.status == Pending ==> c.attempts < MAX_ATTEMPTS)
    && (c.status == Pending && c.attempts > 0 ==> c.nextRetryAt.Some?)
    && (c.nextRetryAt.Some? ==> c.status in {Pending, Processing} && 0 < c.attempts < MAX_ATTEMPTS)
  }

  /** No retry is scheduled further away than 128 seconds. */
  ghost predicate RetrySoon(c: Command, clock: nat) {
    c.nextRetryAt.Some? ==> c.nextRetryAt.value <= clock + 128_000
  }

  ghost predicate RowsOk(w: World) {
    forall c :: c in w.rows ==>
      c.id in w.used && RowAgrees(c, LedgerOf(w.ledger, c.id), Awaited(w.drain)) && RetrySoon(c, w.clock)
  }

  /** A row `d` the running drain has still to finish, as it was when the drain read it. */
  ghost predicate DueAgrees(d: Command, l: Ledger, rows: seq<Command>, called: bool) {
    && l.calls == d.attempts + Bit(called)
    && l.wins == 0
    && |l.failures| == d.attempts
    && forall c :: c in rows && c.id == d.id ==> c.attempts == d.attempts && c.status != Done
  }

  ghost predicate DueOk(w: World)
    requires w.drain.Running?
  {
    forall j :: w.drain.next <= j < |w.drain.due| ==>
      var d := w.drain.due[j];
      d.id in w.used && DueAgrees(d, LedgerOf(w.ledger, d.id), w.rows, w.drain.awaiting && j == w.drain.next)
  }

  ghost predicate PlaceOk(d: Drain)
    requires d.Running?
  {
    && d.next <= |d.due|
    && (d.awaiting ==> d.next < |d.due|)
  }

  ghost predicate DrainOk(w: World) {
    w.drain.Running? ==> DistinctIds(w.drain.due) && PlaceOk(w.drain) && DueOk(w)
  }

  ghost predicate LedgerAgrees(l: Ledger, used: bool, awaited: bool) {
    && (!used ==> l == BLANK)
    && l.wins <= 1
    && l.calls == l.wins + |l.failures| + Bit(awaited)
  }

  ghost predicate LedgerOk(w: World) {
    forall id :: LedgerAgrees(LedgerOf(w.ledger, id), id in w.used, Awaited(w.drain) == Some(id))
  }

  ghost predicate Inv(w: World) {
    && DistinctIds(w.rows)
    && OneActivePerWork(w.rows)
    && w.rows == Compact(w.rows)
    && RowsOk(w)
    && DrainOk(w)
    && LedgerOk(w)
  }

  // ---------------------------------------------------------------- rows under a write

  lemma {:induction false} SubDistinct(rows: seq<Command>, s: seq<Command>)
    requires DistinctIds(rows) && multiset(s) <= multiset(rows)
    ensures DistinctIds(s)
    ensures forall c :: c in s ==> c in rows
  {
    forall c | c in s
      ensures c in rows
    {
      assert c in multiset(s);
    }
    forall i, j | 0 <= i < j < |s|
      ensures s[i].id != s[j].id
    {
      if s[i] == s[j] {
        TwoPlaces(s, s[i]);
        TwoPlaces(rows, s[i]);
      } else {
        assert s[i] in rows && s[j] in rows;
        var a :| 0 <= a < |rows| && rows[a] == s[i];
        var b :| 0 <= b < |rows| && rows[b] == s[j];
      }
    }
  }

  lemma {:induction false} SameIdSameRow(rows: seq<Command>, c: Command, d: Command)
    requires DistinctIds(rows) && c in rows && d in rows && c.id == d.id
    ensures c == d
  {
  }

  lemma {:induction false} CompactShrinks(rows: seq<Command>)
    ensures multiset(Compact(rows)) <= multiset(rows)
  {
    OrdersAreTotal();
    SplitByDone(rows);
    SortSorts(CreatedFirst, Filter(IsActive, rows) + KeptDone(rows));
    KeptThenDropped(rows);
    SortSorts(ProcessedLast, Filter(IsDone, rows));
    assert multiset(KeptDone(rows)) <= multiset(Filter(IsDone, rows));
  }

  function Touch(c: Command, id: string, r: Rewrite): Command {
    if c.id == id then Rewritten(c, r) else c
  }

  lemma {:induction false} RewriteAt(rows: seq<Command>, id: string, r: Rewrite)
    ensures |RewriteRow(rows, id, r)| == |rows|
    ensures forall i :: 0 <= i < |rows| ==> RewriteRow(rows, id, r)[i] == Touch(rows[i], id, r)
  {
    if rows != [] {
      RewriteAt(rows[1..], id, r);
    }
  }

  /** Every row of a rewritten and compacted store comes from a stored row. */
  lemma {:induction false} WriteRows(rows: seq<Command>, id: string, r: Rewrite)
    requires DistinctIds(rows)
    ensures var rows' := Compact(RewriteRow(rows, id, r));
      && DistinctIds(rows')
      && rows' == Compact(rows')
      && (forall c' :: c' in rows' ==> exists c :: c in rows && c' == Touch(c, id, r))
  {
    var raw := RewriteRow(rows, id, r);
    RewriteAt(rows, id, r);
    assert DistinctIds(raw);
    CompactShrinks(raw);
    SubDistinct(raw, Compact(raw));
    CompactIdempotent(raw);
    forall c' | c' in Compact(raw)
      ensures exists c :: c in rows && c' == Touch(c, id, r)
    {
      var i :| 0 <= i < |raw| && raw[i] == c';
      assert rows[i] in rows;
    }
  }

  /** A rewrite keeps one active row per work when the rewritten row was active. */
  lemma {:induction false} WriteOneActive(rows: seq<Command>, id: string, r: Rewrite)
    requires DistinctIds(rows) && OneActivePerWork(rows)
    requires forall c :: c in rows && c.id == id ==> IsActive(c)
    ensures OneActivePerWork(Compact(RewriteRow(rows, id, r)))
  {
    WriteRows(rows, id, r);
    var rows' := Compact(RewriteRow(rows, id, r));
    forall c', d' | c' in rows' && d' in rows' && IsActive(c') && IsActive(d') && SameWork(c', d')
      ensures c'.id == d'.id
    {
      var c := Origin(rows, id, r, c');
      var d := Origin(rows, id, r, d');
      assert IsActive(c) && IsActive(d) && SameWork(c, d);
    }
  }

  lemma {:induction false} Origin(rows: seq<Command>, id: string, r: Rewrite, c': Command) returns (c: Command)
    requires DistinctIds(rows) && c' in Compact(RewriteRow(rows, id, r))
    ensures c in rows && c' == Touch(c, id, r)
    ensures c'.id == c.id && SameWork(c', c) && (c.id != id ==> c' == c)
  {
    WriteRows(rows, id, r);
    c :| c in rows && c' == Touch(c, id, r);
  }

  // ---------------------------------------------------------------- every step keeps the invariant

  /** A step that only adds fresh ids, drops rows or appends a fresh one leaves a drain undisturbed. */
  lemma {:induction false} DrainUndisturbed(w: World, w': World)
    requires DrainOk(w) && w'.drain == w.drain && w'.ledger == w.ledger && w.used <= w'.used
    requires forall d :: d in w'.rows ==> d in w.rows || d.id !in w.used
    ensures DrainOk(w')
  {
  }

  lemma {:induction false} AppendDistinct(rows: seq<Command>, c: Command)
    requires DistinctIds(rows) && forall d :: d in rows ==> d.id != c.id
    ensures DistinctIds(rows + [c])
  {
  }

  lemma {:induction false} CompactBasics(raw: seq<Command>)
    requires DistinctIds(raw)
    ensures DistinctIds(Compact(raw)) && Compact(raw) == Compact(Compact(raw))
    ensures forall c :: c in Compact(raw) ==> c in raw
  {
    CompactShrinks(raw);
    SubDistinct(raw, Compact(raw));
    CompactIdempotent(raw);
  }

  /** A row for work that has no active row yet may join. */
  lemma {:induction false} JoinKeepsOneActive(rows: seq<Command>, c: Command, rows': seq<Command>)
    requires OneActivePerWork(rows) && FindActive(rows, c).None?
    requires forall d :: d in rows' ==> d in rows || d == c
    ensures OneActivePerWork(rows')
  {
    FindActiveSpec(rows, c);
  }

  lemma {:induction false} EnqueueKeeps(w: World, q: Request, id: string, now: nat)
    requires Inv(w) && Enabled(w, Enqueue(q, id, now))
    ensures Inv(Apply(w, Enqueue(q, id, now)))
  {
    var w' := Apply(w, Enqueue(q, id, now));
    var c := NewCommand(q, id, now);
    if c.dedupeKey == "" {
      assert w' == w.(clock := now);
      QuietKeeps(w, w', c);
    } else if FindActive(w.rows, c).Some? {
      assert w' == w.(clock := now);
      QuietKeeps(w, w', c);
    } else {
      AppendDistinct(w.rows, c);
      CompactBasics(w.rows + [c]);
      JoinKeepsOneActive(w.rows, c, w'.rows);
      assert LedgerAgrees(LedgerOf(w.ledger, id), id in w.used, Awaited(w.drain) == Some(id));
      QuietKeeps(w, w', c);
    }
  }

  /** Rows may be added for a fresh id, and the clock may advance, while a drain is under way. */
  lemma {:induction false} QuietKeeps(w: World, w': World, c: Command)
    requires Inv(w) && w'.drain == w.drain && w'.ledger == w.ledger && w.used <= w'.used && w.clock <= w'.clock
    requires DistinctIds(w'.rows) && OneActivePerWork(w'.rows) && w'.rows == Compact(w'.rows)
    requires c.id !in w.used && c.status == Pending && c.attempts == 0 && c.nextRetryAt == None
    requires forall d :: d in w'.rows ==> d in w.rows || (d == c && c.id in w'.used)
    ensures Inv(w')
  {
    DrainUndisturbed(w, w');
    FreshKeepsLedger(w, w');
    forall d | d in w'.rows
      ensures d.id in w'.used && RowAgrees(d, LedgerOf(w'.ledger, d.id), Awaited(w'.drain)) && RetrySoon(d, w'.clock)
    {
      if d !in w.rows {
        assert LedgerAgrees(LedgerOf(w.ledger, d.id), d.id in w.used, Awaited(w.drain) == Some(d.id));
      }
    }
  }

  lemma {:induction false} FreshKeepsLedger(w: World, w': World)
    requires LedgerOk(w) && w'.drain == w.drain && w'.ledger == w.ledger && w.used <= w'.used
    ensures LedgerOk(w')
  {
  }

  lemma {:induction false} ClearKeeps(w: World)
    requires Inv(w)
    ensures Inv(Apply(w, Clear))
  {
    var w' := Apply(w, Clear);
    DrainUndisturbed(w, w');
    assert Compact([]) == [];
  }

  /** A drain takes distinct stored rows that are due. */
  lemma {:induction false} DueRowsSpec(rows: seq<Command>, nowMs: int, limit: nat)
    ensures multiset(DueRows(rows, nowMs, limit)) <= multiset(rows)
    ensures forall d :: d in DueRows(rows, nowMs, limit) ==> d in rows && IsDue(d, nowMs)
  {
    hide Sort, Filter, Take, Sorted, TotalPreorder, IsDue;
    var due := Filter(DueAt(nowMs), rows);
    OrdersAreTotal();
    FilterIn(DueAt(nowMs), rows);
    FilterWithin(DueAt(nowMs), rows);
    SortSorts(CreatedFirst, due);
    TakeWithin(Sort(CreatedFirst, due), limit);
  }

  lemma {:induction false} StartKeeps(w: World, nowMs: Option<int>, limit: Option<int>, at: nat)
    requires Inv(w) && Enabled(w, Start(nowMs, limit, at))
    ensures Inv(Apply(w, Start(nowMs, limit, at)))
  {
    var w' := Apply(w, Start(nowMs, limit, at));
    var now := DrainNow(nowMs, at);
    DueRowsSpec(w.rows, now, DrainLimit(limit));
    SubDistinct(w.rows, w'.drain.due);
    assert Awaited(w'.drain) == Awaited(w.drain);
    forall j | 0 <= j < |w'.drain.due|
      ensures var d := w'.drain.due[j];
        d.id in w'.used && DueAgrees(d, LedgerOf(w'.ledger, d.id), w'.rows, false)
    {
      var d := w'.drain.due[j];
      assert d in w.rows && IsDue(d, now);
      forall c | c in w.rows && c.id == d.id
        ensures c == d
      {
        SameIdSameRow(w.rows, c, d);
      }
    }
  }

  /** What a step of the drain on its current row must do to that row and to its ledger. */
  ghost predicate RewriteStep(w: World, w': World, r: Rewrite) {
    && w.drain.Running? && w.drain.next < |w.drain.due|
    && w'.drain.Running? && w'.drain.due == w.drain.due
    && w.drain.next <= w'.drain.next
    && w'.rows == Compact(RewriteRow(w.rows, Current(w).id, r))
    && w'.used == w.used && w.clock <= w'.clock
    && (forall id :: id != Current(w).id ==> LedgerOf(w'.ledger, id) == LedgerOf(w.ledger, id))
    && (forall id :: id != Current(w).id ==> Awaited(w.drain) != Some(id) && Awaited(w'.drain) != Some(id))
    && (w'.drain.awaiting ==> w'.drain.next == w.drain.next)
  }

  /** The rows after such a step, given the current row's new agreement. */
  lemma {:induction false} RewriteKeepsRows(w: World, w': World, r: Rewrite)
    requires Inv(w) && RewriteStep(w, w', r)
    requires forall c :: c in w.rows && c.id == Current(w).id ==>
      && IsActive(c)
      && RowAgrees(Rewritten(c, r), LedgerOf(w'.ledger, c.id), Awaited(w'.drain))
      && RetrySoon(Rewritten(c, r), w'.clock)
    ensures DistinctIds(w'.rows) && OneActivePerWork(w'.rows) && w'.rows == Compact(w'.rows) && RowsOk(w')
  {
    var id := Current(w).id;
    WriteRows(w.rows, id, r);
    WriteOneActive(w.rows, id, r);
    forall c' | c' in w'.rows
      ensures c'.id in w'.used && RowAgrees(c', LedgerOf(w'.ledger, c'.id), Awaited(w'.drain)) && RetrySoon(c', w'.clock)
    {
      var c := Origin(w.rows, id, r, c');
    }
  }

  /** The later rows of the drain are untouched by it. */
  lemma {:induction false} RewriteKeepsDue(w: World, w': World, r: Rewrite, j: nat)
    requires Inv(w) && RewriteStep(w, w', r) && w.drain.next < j < |w.drain.due|
    ensures var d := w.drain.due[j];
      d.id in w'.used && DueAgrees(d, LedgerOf(w'.ledger, d.id), w'.rows, false)
  {
    var d := w.drain.due[j];
    assert d.id != Current(w).id;
    assert d.id in w.used && DueAgrees(d, LedgerOf(w.ledger, d.id), w.rows, w.drain.awaiting && j == w.drain.next);
    forall c' | c' in w'.rows && c'.id == d.id
      ensures c'.attempts == d.attempts && c'.status != Done
    {
      var c := Origin(w.rows, Current(w).id, r, c');
    }
  }

  lemma {:induction false} RewriteKeepsLedger(w: World, w': World, r: Rewrite)
    requires Inv(w) && RewriteStep(w, w', r)
    requires var id := Current(w).id;
      LedgerAgrees(LedgerOf(w'.ledger, id), id in w'.used, Awaited(w'.drain) == Some(id))
    ensures LedgerOk(w')
  {
  }

  /** What is known of the current row before the drain rewrites it. */
  lemma {:induction false} CurrentFacts(w: World)
    requires Inv(w) && w.drain.Running? && w.drain.next < |w.drain.due|
    ensures var d := Current(w);
      && d.id in w.used
      && DueAgrees(d, LedgerOf(w.ledger, d.id), w.rows, w.drain.awaiting)
      && LedgerAgrees(LedgerOf(w.ledger, d.id), true, w.drain.awaiting)
      && (forall c :: c in w.rows && c.id == d.id ==>
            RowAgrees(c, LedgerOf(w.ledger, d.id), Awaited(w.drain)) && RetrySoon(c, w.clock))
  {
  }

  lemma {:induction false} BeginKeeps(w: World, u: nat)
    requires Inv(w) && Enabled(w, Begin(u))
    ensures Inv(Apply(w, Begin(u)))
  {
    hide Compact, RewriteRow;
    var w' := Apply(w, Begin(u));
    var r := ToProcessing(u);
    CurrentFacts(w);
    RewriteKeepsRows(w, w', r);
    RewriteKeepsLedger(w, w', r);
    forall j | w'.drain.next <= j < |w'.drain.due|
      ensures var d := w'.drain.due[j];
        d.id in w'.used && DueAgrees(d, LedgerOf(w'.ledger, d.id), w'.rows, w'.drain.awaiting && j == w'.drain.next)
    {
      if j == w.drain.next {
        forall c' | c' in w'.rows && c'.id == Current(w).id
          ensures c'.attempts == Current(w).attempts && c'.status != Done
        {
          var c := Origin(w.rows, Current(w).id, r, c');
        }
      } else {
        RewriteKeepsDue(w, w', r, j);
      }
    }
  }

  /** The due list behind the current row, once that row is finished. */
  lemma {:induction false} FinishedRowKeepsDrain(w: World, w': World, r: Rewrite)
    requires Inv(w) && RewriteStep(w, w', r)
    requires w'.drain.next == w.drain.next + 1 && !w'.drain.awaiting && PlaceOk(w'.drain)
    ensures DrainOk(w')
  {
    forall j | w'.drain.next <= j < |w'.drain.due|
      ensures var d := w'.drain.due[j];
        d.id in w'.used && DueAgrees(d, LedgerOf(w'.ledger, d.id), w'.rows, false)
    {
      RewriteKeepsDue(w, w', r, j);
    }
  }

  lemma {:induction false} SucceedKeeps(w: World, u: nat, p: nat)
    requires Inv(w) && Enabled(w, Succeed(u, p))
    ensures Inv(Apply(w, Succeed(u, p)))
  {
    hide Compact, RewriteRow;
    var w' := Apply(w, Succeed(u, p));
    var r := ToDone(u, p);
    CurrentFacts(w);
    RewriteKeepsRows(w, w', r);
    RewriteKeepsLedger(w, w', r);
    FinishedRowKeepsDrain(w, w', r);
  }

  /** No delay that is ever scheduled reaches the 15 minute cap. */
  lemma {:induction false} BackoffIsExact(n: nat)
    requires 0 < n < MAX_ATTEMPTS
    ensures NextBackoffMs(n) == Pow2(n) * 1000 <= 128_000 < BACKOFF_CAP_MS
  {
    assert Pow2(1) == 2 && Pow2(2) == 4 && Pow2(3) == 8 && Pow2(4) == 16;
    assert Pow2(5) == 32 && Pow2(6) == 64 && Pow2(7) == 128;
    assert n in {1, 2, 3, 4, 5, 6, 7};
  }

  /** The row that a failure stores, and its ledger. */
  lemma {:induction false} FailedRowAgrees(c: Command, l: Ledger, error: ExecutorError, u: nat, last: nat, r: nat)
    requires RowAgrees(c, l, Some(c.id)) && u <= last <= r
    ensures var n := c.attempts + 1;
      var c' := Rewritten(c, FailureRewrite(error, n, u, last, r));
      && RowAgrees(c', l.(failures := l.failures + [Failure(u, IsRetryable(error))]), None)
      && RetrySoon(c', r)
  {
    if CanRetry(error, c.attempts + 1) {
      BackoffIsExact(c.attempts + 1);
    }
  }

  lemma {:induction false} FailKeeps(w: World, error: ExecutorError, u: nat, l: nat, r: nat)
    requires Inv(w) && Enabled(w, Fail(error, u, l, r))
    ensures Inv(Apply(w, Fail(error, u, l, r)))
  {
    hide Compact, RewriteRow, FailureRewrite, RetrySoon;
    var w' := Apply(w, Fail(error, u, l, r));
    var d := Current(w);
    var rw := FailureRewrite(error, d.attempts + 1, u, l, r);
    CurrentFacts(w);
    forall c | c in w.rows && c.id == d.id
      ensures IsActive(c) && RowAgrees(Rewritten(c, rw), LedgerOf(w'.ledger, c.id), Awaited(w'.drain))
      ensures RetrySoon(Rewritten(c, rw), w'.clock)
    {
      FailedRowAgrees(c, LedgerOf(w.ledger, d.id), error, u, l, r);
    }
    RewriteKeepsRows(w, w', rw);
    RewriteKeepsLedger(w, w', rw);
    FinishedRowKeepsDrain(w, w', rw);
  }

  lemma {:induction false} StepKeeps(w: World, e: Event)
    requires Inv(w) && Enabled(w, e)
    ensures Inv(Apply(w, e))
  {
    match e
    case Enqueue(q, id, now) => EnqueueKeeps(w, q, id, now);
    case Clear => ClearKeeps(w);
    case Start(nowMs, limit, at) => StartKeeps(w, nowMs, limit, at);
    case Begin(u) => BeginKeeps(w, u);
    case Succeed(u, p) => SucceedKeeps(w, u, p);
    case Fail(error, u, l, r) => FailKeeps(w, error, u, l, r);
    case Finish =>
  }

  lemma {:induction false} RunKeeps(w: World, es: seq<Event>)
    requires Inv(w) && Legal(w, es)
    ensures Inv(Exec(w, es))
    decreases es
  {
    if es != [] {
      StepKeeps(w, es[0]);
      RunKeeps(Apply(w, es[0]), es[1..]);
    }
  }

  // ---------------------------------------------------------------- what the steps of a drain store

  /** `nowMs` and `maxCommands` default to the clock and to 20, also when 0 is given; at least one
      row is taken. */
  lemma {:induction false} DrainDefaults(clock: nat, n: int)
    ensures DrainNow(None, clock) == clock && DrainNow(Some(n), clock) == if n == 0 then clock else n
    ensures DrainLimit(None) == 20 && DrainLimit(Some(n)) == if n == 0 then 20 else if n < 0 then 1 else n
  {
  }

  /** A row stored after a step of the drain under another id than the current one was stored before;
      `b` is what was stored under the id of `c`. */
  lemma {:induction false} RowBefore(w: World, rw: Rewrite, c: Command) returns (b: Command)
    requires Inv(w) && w.drain.Running? && w.drain.next < |w.drain.due|
    requires c in Compact(RewriteRow(w.rows, Current(w).id, rw))
    ensures b in w.rows && b.id == c.id && (c.id != Current(w).id ==> c == b)
    ensures c.id == Current(w).id ==> b.attempts == Current(w).attempts && b.status != Done && c == Rewritten(b, rw)
  {
    CurrentFacts(w);
    b := Origin(w.rows, Current(w).id, rw, c);
  }

  /** The row before and the row after a step keep what the request fixed. */
  predicate SameRequest(b: Command, c: Command) {
    && c.id == b.id && c.kind == b.kind && c.company == b.company && c.branch == b.branch
    && c.dedupeKey == b.dedupeKey && c.payload == b.payload && c.createdAt == b.createdAt
  }

  /** Before the executor is called the current row is PROCESSING and newly stamped, no more. */
  lemma {:induction false} AfterBegin(w: World, u: nat, c: Command) returns (b: Command)
    requires Inv(w) && Enabled(w, Begin(u)) && c in Apply(w, Begin(u)).rows && c.id == Current(w).id
    ensures b in w.rows && SameRequest(b, c) && c.status == Processing && c.updatedAt == u
    ensures c.attempts == b.attempts && c.processedAt == b.processedAt && c.nextRetryAt == b.nextRetryAt
    ensures c.lastAttemptAt == b.lastAttemptAt && c.lastError == b.lastError
  {
    hide Compact, RewriteRow, Inv;
    b := RowBefore(w, ToProcessing(u), c);
  }

  /** After a success it is DONE and stamped, with no retry instant and no error. */
  lemma {:induction false} AfterSuccess(w: World, u: nat, p: nat, c: Command) returns (b: Command)
    requires Inv(w) && Enabled(w, Succeed(u, p)) && c in Apply(w, Succeed(u, p)).rows && c.id == Current(w).id
    ensures b in w.rows && SameRequest(b, c) && c.status == Done && c.updatedAt == u && c.processedAt == Some(p)
    ensures c.nextRetryAt == None && c.lastError == ""
    ensures c.attempts == b.attempts && c.lastAttemptAt == b.lastAttemptAt
  {
    hide Compact, RewriteRow, Inv;
    b := RowBefore(w, ToDone(u, p), c);
  }

  /** After a failure it has one more attempt, and waits for 2^n seconds after its n-th one exactly
      when the error was thrown without a response or its HTTP status is 429 or at least 500, and
      this was not the eighth attempt; otherwise it is FAILED with no retry instant. */
  lemma {:induction false} AfterFailure(w: World, e: ExecutorError, u: nat, l: nat, r: nat, c: Command) returns (b: Command)
    requires Inv(w) && Enabled(w, Fail(e, u, l, r)) && c in Apply(w, Fail(e, u, l, r)).rows && c.id == Current(w).id
    ensures b in w.rows && SameRequest(b, c) && c.attempts == b.attempts + 1
    ensures c.updatedAt == u && c.lastAttemptAt == Some(l) && c.processedAt == b.processedAt
    ensures var again := (e.Thrown? || e.status == 0 || e.status == 429 || e.status >= 500) && b.attempts + 1 < 8;
      && c.status == (if again then Pending else Failed)
      && c.nextRetryAt == if again then Some(r + Pow2(c.attempts) * 1000) else None
    ensures var text := if e.Thrown? then e.text
                        else if e.apiMessage != "" then e.apiMessage
                        else if e.message != "" then e.message
                        else if e.code.Some? then e.code.value
                        else "Unknown error";
      c.lastError == if |text| <= 255 then text else text[..255]
  {
    hide Compact, RewriteRow, Inv, NextBackoffMs, FailureRewrite, CanRetry, IsRetryable;
    var n := Current(w).attempts + 1;
    b := RowBefore(w, FailureRewrite(e, n, u, l, r), c);
    RetriesExactly(e, b.attempts);
    KeptMessage(e, n, u, l, r);
    FailureFields(b, e, n, u, l, r);
    if CanRetry(e, n) {
      BackoffIsExact(n);
    }
  }

  lemma {:induction false} FailureFields(b: Command, e: ExecutorError, n: nat, u: nat, l: nat, r: nat)
    ensures var rw := FailureRewrite(e, n, u, l, r);
      var c := Rewritten(b, rw);
      && SameRequest(b, c) && c.attempts == n && c.updatedAt == u && c.lastAttemptAt == Some(l)
      && c.processedAt == b.processedAt && c.lastError == rw.error
      && c.status == (if CanRetry(e, n) then Pending else Failed)
      && c.nextRetryAt == if CanRetry(e, n) then Some(r + NextBackoffMs(n)) else None
    ensures CanRetry(e, n) ==> 0 < n < MAX_ATTEMPTS || n == 0
  {
    hide NextBackoffMs, IsRetryable;
  }

  /** When a drain may start, call the executor, take its answer and end. */
  lemma {:induction false} WhenEnabled(w: World, u: nat, p: nat, r: nat, e: ExecutorError, n: Option<int>)
    ensures Enabled(w, Start(n, n, u)) <==> w.drain == Idle && u >= w.clock
    ensures w.drain.Running? ==>
      && (Enabled(w, Begin(u)) <==> !w.drain.awaiting && w.drain.next < |w.drain.due| && u >= w.clock)
      && (Enabled(w, Succeed(u, p)) <==> w.drain.awaiting && w.drain.next < |w.drain.due| && u >= w.clock && p >= u)
      && (Enabled(w, Fail(e, u, p, r)) <==>
            w.drain.awaiting && w.drain.next < |w.drain.due| && u >= w.clock && p >= u && r >= p)
      && (Enabled(w, Finish) <==> !w.drain.awaiting && w.drain.next == |w.drain.due|)
    ensures Enabled(w, Clear)
  {
  }
}
