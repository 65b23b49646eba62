/** What holds in every run of the queue from the empty store. */
module PosQueueRuns {
  import opened Basics
  import opened StableSort
  import opened Trimming
  import opened PosQueue
  import opened PosQueueCompaction
  import opened PosQueueProtocol

  lemma {:induction false} InitOk()
    ensures Inv(INIT)
  {
    assert Compact([]) == [];
  }

  lemma {:induction false} ReachableOk(es: seq<Event>)
    requires Legal(INIT, es)
    ensures Inv(Exec(INIT, es))
  {
    InitOk();
    RunKeeps(INIT, es);
  }

  /** Two different places of the store never hold active rows for the same work. */
  lemma {:induction false} AtMostOneActive(es: seq<Event>, i: nat, j: nat)
    requires Legal(INIT, es)
    requires i < j < |Exec(INIT, es).rows|
    ensures var a, b := Exec(INIT, es).rows[i], Exec(INIT, es).rows[j];
      && a.id != b.id
      && (a.dedupeKey == b.dedupeKey && a.company == b.company && a.branch == b.branch ==>
            a.status == Done || b.status == Done)
  {
    ReachableOk(es);
    OneActive(Exec(INIT, es).rows, i, j);
  }

  lemma {:induction false} OneActive(rows: seq<Command>, i: nat, j: nat)
    requires DistinctIds(rows) && OneActivePerWork(rows) && i < j < |rows|
    ensures rows[i].id != rows[j].id
    ensures SameWork(rows[i], rows[j]) ==> rows[i].status == Done || rows[j].status == Done
  {
    assert rows[i] in rows && rows[j] in rows;
  }

  /** No command succeeds twice, stored or not; and the executor was called for a stored
      command once per recorded attempt, plus once if it is DONE or being processed. */
  lemma {:induction false} SucceedsAtMostOnce(es: seq<Event>, id: string)
    requires Legal(INIT, es)
    ensures var w := Exec(INIT, es);
      && LedgerOf(w.ledger, id).wins <= 1
      && forall c :: c in w.rows && c.id == id ==>
           && LedgerOf(w.ledger, id).calls == c.attempts + Bit(c.status == Done || c.status == Processing)
           && (LedgerOf(w.ledger, id).wins == 1 <==> c.status == Done)
  {
    ReachableOk(es);
    var w := Exec(INIT, es);
    assert LedgerAgrees(LedgerOf(w.ledger, id), id in w.used, Awaited(w.drain) == Some(id));
  }

  /** A PENDING row has at most seven attempts behind it, its retry is never further than
      128 seconds away, and the stored list is what a further write would store. */
  lemma {:induction false} StoredRowBounds(es: seq<Event>, c: Command)
    requires Legal(INIT, es) && c in Exec(INIT, es).rows
    ensures c.status == Pending ==> c.attempts <= 7
    ensures c.nextRetryAt.Some? ==> c.nextRetryAt.value <= Exec(INIT, es).clock + 128_000
    ensures c.status == Pending && c.attempts > 0 ==> c.nextRetryAt.Some?
    ensures c.status == Failed || c.status == Done ==> c.nextRetryAt == None
    ensures Compact(Exec(INIT, es).rows) == Exec(INIT, es).rows
  {
    ReachableOk(es);
  }

  // ---------------------------------------------------------------- DONE is final

  /** `c` succeeded: if its id is still stored, the row is exactly `c`. */
  ghost predicate Settled(w: World, c: Command) {
    && c.status == Done && c.id in w.used
    && LedgerOf(w.ledger, c.id).wins == 1
    && forall d :: d in w.rows && d.id == c.id ==> d == c
  }

  lemma {:induction false} SettledStep(w: World, e: Event, c: Command)
    requires Inv(w) && Settled(w, c) && Enabled(w, e)
    ensures Settled(Apply(w, e), c)
    ensures LedgerOf(Apply(w, e).ledger, c.id) == LedgerOf(w.ledger, c.id)
  {
    var w' := Apply(w, e);
    match e
    case Enqueue(q, id, now) =>
      var n := NewCommand(q, id, now);
      if n.dedupeKey != "" {
        if FindActive(w.rows, n).Some? {
        } else {
          EnqueuedRows(w.rows, n);
        }
      }
    case Begin(u) => SettledRewrite(w, c, ToProcessing(u));
    case Succeed(u, p) => SettledRewrite(w, c, ToDone(u, p));
    case Fail(error, u, l, r) =>
      SettledRewrite(w, c, FailureRewrite(error, Current(w).attempts + 1, u, l, r));
    case _ =>
  }

  lemma {:induction false} EnqueuedRows(rows: seq<Command>, n: Command)
    ensures forall d :: d in EnqueueRows(rows, n) ==> d in rows || d == n
  {
    CompactKeepsActive(rows);
    CompactKeepsActive(rows + [n]);
  }

  lemma {:induction false} SettledRewrite(w: World, c: Command, r: Rewrite)
    requires Inv(w) && Settled(w, c) && w.drain.Running? && w.drain.next < |w.drain.due|
    ensures c.id != Current(w).id
    ensures forall d :: d in Compact(RewriteRow(w.rows, Current(w).id, r)) && d.id == c.id ==> d == c
  {
    CurrentFacts(w);
    forall d | d in Compact(RewriteRow(w.rows, Current(w).id, r)) && d.id == c.id
      ensures d == c
    {
      var o := Origin(w.rows, Current(w).id, r, d);
    }
  }

  lemma {:induction false} SettledRun(w: World, es: seq<Event>, c: Command)
    requires Inv(w) && Settled(w, c) && Legal(w, es)
    ensures Settled(Exec(w, es), c)
    ensures LedgerOf(Exec(w, es).ledger, c.id) == LedgerOf(w.ledger, c.id)
    decreases es
  {
    if es != [] {
      SettledStep(w, es[0], c);
      StepKeeps(w, es[0]);
      SettledRun(Apply(w, es[0]), es[1..], c);
    }
  }

  /** Once DONE, a row never changes again as long as it is stored, never comes back once it
      is dropped, and its command is never handed to the executor again. */
  lemma {:induction false} DoneIsFinal(before: seq<Event>, after: seq<Event>, c: Command)
    requires Legal(INIT, before + after)
    requires Legal(INIT, before) && c in Exec(INIT, before).rows && c.status == Done
    ensures forall d :: d in Exec(INIT, before + after).rows && d.id == c.id ==> d == c
    ensures LedgerOf(Exec(INIT, before + after).ledger, c.id) == LedgerOf(Exec(INIT, before).ledger, c.id)
  {
    ReachableOk(before);
    ExecConcat(INIT, before, after);
    var w := Exec(INIT, before);
    forall d | d in w.rows && d.id == c.id
      ensures d == c
    {
      SameIdSameRow(w.rows, c, d);
    }
    SettledRun(w, after, c);
  }

  // ---------------------------------------------------------------- attempts have no bound

  /** A final failure: FAILED rows are due again at once. */
  function FailingDrain(t: nat): seq<Event> {
    [Start(None, None, t), Begin(t), Fail(HttpLike(400, "", "", None), t, t, t), Finish]
  }

  function FailingDrains(n: nat, t: nat): seq<Event> {
    if n == 0 then [] else FailingDrain(t) + FailingDrains(n - 1, t)
  }

  lemma {:induction false} CompactOne(c: Command)
    ensures Compact([c]) == [c]
  {
    assert [c][1..] == [];
    assert [c] + [] == [c] && [] + [c] == [c];
    if IsDone(c) {
      FilterAll(IsDone, [c]);
      FilterNone(IsActive, [c]);
      assert Sort(ProcessedLast, [c]) == [c];
    } else {
      FilterAll(IsActive, [c]);
      FilterNone(IsDone, [c]);
    }
    assert Sort(CreatedFirst, [c]) == [c];
  }

  lemma {:induction false} RewriteOne(c: Command, r: Rewrite)
    ensures Compact(RewriteRow([c], c.id, r)) == [Rewritten(c, r)]
  {
    assert [c][1..] == [];
    assert RewriteRow([c], c.id, r) == [Rewritten(c, r)];
    CompactOne(Rewritten(c, r));
  }

  lemma {:induction false} DueOne(c: Command, t: nat)
    requires c.status in {Pending, Failed} && c.nextRetryAt == None
    ensures DueRows([c], t, 20) == [c]
  {
    assert DueAt(t)(c) && [c][1..] == [];
    assert Filter(DueAt(t), [c]) == [c];
    assert Sort(CreatedFirst, [c]) == [c];
  }

  lemma {:induction false} ExecFour(w: World, a: Event, b: Event, c: Event, d: Event)
    requires Enabled(w, a)
    requires var w1 := Apply(w, a); Enabled(w1, b)
    requires var w2 := Apply(Apply(w, a), b); Enabled(w2, c)
    requires var w3 := Apply(Apply(Apply(w, a), b), c); Enabled(w3, d)
    ensures Legal(w, [a, b, c, d])
    ensures Exec(w, [a, b, c, d]) == Apply(Apply(Apply(Apply(w, a), b), c), d)
  {
    var es := [a, b, c, d];
    assert es[1..] == [b, c, d] && [b, c, d][1..] == [c, d] && [c, d][1..] == [d] && [d][1..] == [];
    var w1 := Apply(w, a);
    var w2 := Apply(w1, b);
    var w3 := Apply(w2, c);
    var w4 := Apply(w3, d);
    assert Legal(w4, []) && Exec(w4, []) == w4;
    assert Legal(w3, [d]) && Exec(w3, [d]) == w4;
    assert Legal(w2, [c, d]) && Exec(w2, [c, d]) == w4;
    assert Legal(w1, [b, c, d]) && Exec(w1, [b, c, d]) == w4;
  }

  /** A world with one stored row `c`, which a drain has taken as `d`. */
  ghost predicate OneRow(w: World, c: Command, d: Command, next: nat, awaiting: bool, t: nat) {
    && w.rows == [c] && c.id == d.id && w.clock == t
    && w.drain.Running? && w.drain.due == [d] && w.drain.next == next && w.drain.awaiting == awaiting
  }

  lemma {:induction false} OneRowBegin(w: World, c: Command, t: nat)
    requires OneRow(w, c, c, 0, false, t)
    ensures OneRow(Apply(w, Begin(t)), Rewritten(c, ToProcessing(t)), c, 0, true, t)
  {
    RewriteOne(c, ToProcessing(t));
  }

  lemma {:induction false} OneRowFail(w: World, p: Command, d: Command, e: ExecutorError, t: nat)
    requires OneRow(w, p, d, 0, true, t)
    ensures OneRow(Apply(w, Fail(e, t, t, t)), Rewritten(p, FailureRewrite(e, d.attempts + 1, t, t, t)), d, 1, false, t)
  {
    RewriteOne(p, FailureRewrite(e, d.attempts + 1, t, t, t));
  }

  lemma {:induction false} FinalFailure(c: Command, e: ExecutorError, t: nat)
    requires e == HttpLike(400, "", "", None)
    ensures var f := Rewritten(Rewritten(c, ToProcessing(t)), FailureRewrite(e, c.attempts + 1, t, t, t));
      f.attempts == c.attempts + 1 && f.status == Failed && f.nextRetryAt == None
  {
  }

  lemma {:induction false} FailingDrainStep(w: World, c: Command)
    requires w.rows == [c] && w.drain == Idle
    requires c.status in {Pending, Failed} && c.nextRetryAt == None
    ensures Legal(w, FailingDrain(w.clock))
    ensures var w' := Exec(w, FailingDrain(w.clock));
      && w'.drain == Idle && w'.clock == w.clock
      && |w'.rows| == 1
      && w'.rows[0].attempts == c.attempts + 1
      && w'.rows[0].status == Failed && w'.rows[0].nextRetryAt == None
  {
    hide DueRows, Compact, RewriteRow, FailureRewrite;
    var t := w.clock;
    var e := HttpLike(400, "", "", None);
    DueOne(c, t);
    FinalFailure(c, e, t);
    var w1 := Apply(w, Start(None, None, t));
    assert OneRow(w1, c, c, 0, false, t);
    OneRowBegin(w1, c, t);
    var w2 := Apply(w1, Begin(t));
    OneRowFail(w2, Rewritten(c, ToProcessing(t)), c, e, t);
    ExecFour(w, Start(None, None, t), Begin(t), Fail(e, t, t, t), Finish);
  }

  lemma {:induction false} FailingDrainsRun(w: World, n: nat)
    requires |w.rows| == 1 && w.drain == Idle
    requires w.rows[0].status in {Pending, Failed} && w.rows[0].nextRetryAt == None
    ensures Legal(w, FailingDrains(n, w.clock))
    ensures |Exec(w, FailingDrains(n, w.clock)).rows| == 1
    ensures Exec(w, FailingDrains(n, w.clock)).rows[0].attempts == w.rows[0].attempts + n
    decreases n
  {
    hide Apply, Enabled, FailingDrain;
    if n > 0 {
      var c := w.rows[0];
      assert w.rows == [c];
      FailingDrainStep(w, c);
      var w' := Exec(w, FailingDrain(w.clock));
      FailingDrainsRun(w', n - 1);
      ExecConcat(w, FailingDrain(w.clock), FailingDrains(n - 1, w.clock));
    }
  }

  /** MAX_ATTEMPTS bounds the scheduled retries only: a FAILED row has no `next_retry_at`, so
      every later drain takes it again.  For every n some run makes n attempts for one row. */
  lemma {:induction false} AttemptsAreNotBounded(n: nat) returns (es: seq<Event>)
    ensures Legal(INIT, es)
    ensures |Exec(INIT, es).rows| == 1 && Exec(INIT, es).rows[0].attempts == n
  {
    var q := Request(VoidTicket, 1, 1, "k", "");
    var e := Enqueue(q, "a", 0);
    var c := NewCommand(q, "a", 0);
    assert Trim(IsJsBlank, "k") == "k" by {
      TrimSpec(IsJsBlank, "k");
    }
    var w := Apply(INIT, e);
    assert w.rows == [c] by {
      assert [] + [c] == [c];
      CompactOne(c);
    }
    FailingDrainsRun(w, n);
    es := [e] + FailingDrains(n, 0);
    assert [e][1..] == [] && Legal(w, []);
    assert Legal(INIT, [e]) && Exec(INIT, [e]) == w;
    ExecConcat(INIT, [e], FailingDrains(n, 0));
  }

  /** The row a drain takes has attempts left. */
  predicate TakesUnexhausted(w: World, e: Event)
    requires Enabled(w, e)
  {
    e.Start? ==>
      forall d :: d in DueRows(w.rows, DrainNow(e.nowMs, e.at), DrainLimit(e.maxCommands)) ==> d.attempts < MAX_ATTEMPTS
  }

  predicate AllTakeUnexhausted(w: World, es: seq<Event>)
    requires Legal(w, es)
    decreases es
  {
    es == [] || (TakesUnexhausted(w, es[0]) && AllTakeUnexhausted(Apply(w, es[0]), es[1..]))
  }

  /** Nothing stored went beyond the limit, and nothing waiting in a drain has reached it. */
  ghost predicate WithinLimit(w: World) {
    && (forall c :: c in w.rows ==> c.attempts <= MAX_ATTEMPTS)
    && (w.drain.Running? ==> forall j :: w.drain.next <= j < |w.drain.due| ==> w.drain.due[j].attempts < MAX_ATTEMPTS)
  }

  lemma {:induction false} RewriteWithinLimit(w: World, r: Rewrite)
    requires Inv(w) && WithinLimit(w) && w.drain.Running? && w.drain.next < |w.drain.due|
    requires r.ToRetry? || r.ToFailed? ==> r.attempts <= MAX_ATTEMPTS
    ensures forall c' :: c' in Compact(RewriteRow(w.rows, Current(w).id, r)) ==> c'.attempts <= MAX_ATTEMPTS
  {
    forall c' | c' in Compact(RewriteRow(w.rows, Current(w).id, r))
      ensures c'.attempts <= MAX_ATTEMPTS
    {
      var c := Origin(w.rows, Current(w).id, r, c');
    }
  }

  lemma {:induction false} StepWithinLimit(w: World, e: Event)
    requires Inv(w) && WithinLimit(w) && Enabled(w, e) && TakesUnexhausted(w, e)
    ensures WithinLimit(Apply(w, e))
  {
    match e
    case Enqueue(q, id, now) => EnqueuedRows(w.rows, NewCommand(q, id, now));
    case Begin(u) => RewriteWithinLimit(w, ToProcessing(u));
    case Succeed(u, p) => RewriteWithinLimit(w, ToDone(u, p));
    case Fail(error, u, l, r) => RewriteWithinLimit(w, FailureRewrite(error, Current(w).attempts + 1, u, l, r));
    case _ =>
  }

  lemma {:induction false} RunWithinLimit(w: World, es: seq<Event>)
    requires Inv(w) && WithinLimit(w) && Legal(w, es) && AllTakeUnexhausted(w, es)
    ensures WithinLimit(Exec(w, es))
    decreases es
  {
    if es != [] {
      StepWithinLimit(w, es[0]);
      StepKeeps(w, es[0]);
      RunWithinLimit(Apply(w, es[0]), es[1..]);
    }
  }

  /** The limit holds in every run whose drains take no row that has used it up... */
  lemma {:induction false} AttemptsWithinLimit(es: seq<Event>, c: Command)
    requires Legal(INIT, es) && AllTakeUnexhausted(INIT, es) && c in Exec(INIT, es).rows
    ensures c.attempts <= 8
  {
    InitOk();
    RunWithinLimit(INIT, es);
  }

  lemma {:induction false} DistinctStored(w: World)
    requires Inv(w)
    ensures DistinctIds(w.rows)
  {
  }

  /** ...and a failure breaks it exactly when the row it is about had used it up. */
  lemma {:induction false} FailureBreaksLimit(w: World, c: Command, error: ExecutorError, u: nat, l: nat, r: nat)
    requires Inv(w) && Enabled(w, Fail(error, u, l, r))
    requires c in Apply(w, Fail(error, u, l, r)).rows && c.id == Current(w).id
    ensures c.attempts > 8 <==> Current(w).attempts >= 8
  {
    hide Compact, RewriteRow, Inv;
    var rw := FailureRewrite(error, Current(w).attempts + 1, u, l, r);
    assert DistinctIds(w.rows) by {
      DistinctStored(w);
    }
    var o := Origin(w.rows, Current(w).id, rw, c);
    assert c == Rewritten(o, rw);
  }
}
