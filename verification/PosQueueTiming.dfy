/** How far apart the failures of a command are when drains use the real time. */
module PosQueueTiming {
  import opened Basics
  import opened PosQueue
  import opened PosQueueProtocol
  import opened PosQueueRuns

  /** A drain that is told a time is not told a future one. */
  predicate OnTime(e: Event) {
    e.Start? ==> DrainNow(e.nowMs, e.at) <= e.at
  }

  predicate AllOnTime(es: seq<Event>) {
    forall e :: e in es ==> OnTime(e)
  }

  /** The failure `fs[k]` was answered with a scheduled retry. */
  predicate Rescheduled(fs: seq<Failure>, k: nat)
    requires k < |fs|
  {
    fs[k].retryable && k + 1 < MAX_ATTEMPTS
  }

  ghost predicate Spaced(fs: seq<Failure>) {
    forall k {:trigger Rescheduled(fs, k)} :: 0 <= k < |fs| - 1 && Rescheduled(fs, k) ==>
      fs[k + 1].at >= fs[k].at + Pow2(k + 1) * 1000
  }

  /** The earliest instant of the next attempt. */
  function NotBefore(fs: seq<Failure>): nat {
    if fs != [] && Rescheduled(fs, |fs| - 1) then fs[|fs| - 1].at + Pow2(|fs|) * 1000 else 0
  }

  ghost predicate RowTimed(c: Command, fs: seq<Failure>) {
    && (c.status in {Pending, Processing} && fs != [] && Rescheduled(fs, |fs| - 1) ==>
         c.nextRetryAt.Some? && NotBefore(fs) <= c.nextRetryAt.value)
    && (c.status == Failed ==> fs != [] && !Rescheduled(fs, |fs| - 1))
  }

  ghost predicate Timed(w: World) {
    && (forall c :: c in w.rows ==> RowTimed(c, LedgerOf(w.ledger, c.id).failures))
    && (w.drain.Running? ==>
          forall j :: w.drain.next <= j < |w.drain.due| ==>
            NotBefore(LedgerOf(w.ledger, w.drain.due[j].id).failures) <= w.clock)
    && (forall id :: Spaced(LedgerOf(w.ledger, id).failures))
  }

  lemma {:induction false} StartTimed(w: World, e: Event)
    requires Inv(w) && Timed(w) && e.Start? && Enabled(w, e) && OnTime(e)
    ensures Timed(Apply(w, e))
  {
    var w' := Apply(w, e);
    var now := DrainNow(e.nowMs, e.at);
    DueRowsSpec(w.rows, now, DrainLimit(e.maxCommands));
    forall j | 0 <= j < |w'.drain.due|
      ensures NotBefore(LedgerOf(w'.ledger, w'.drain.due[j].id).failures) <= w'.clock
    {
      var d := w'.drain.due[j];
      var fs := LedgerOf(w.ledger, d.id).failures;
      assert d in w.rows && IsDue(d, now) && RowTimed(d, fs);
      if fs != [] && Rescheduled(fs, |fs| - 1) {
        assert Pow2(|fs|) > 0;
      }
    }
  }

  /** A step of the drain on its current row leaves every other row as it was. */
  lemma {:induction false} RewriteTimed(w: World, w': World, r: Rewrite)
    requires Inv(w) && Timed(w) && RewriteStep(w, w', r)
    requires forall c :: c in w.rows && c.id == Current(w).id ==>
      RowTimed(Rewritten(c, r), LedgerOf(w'.ledger, c.id).failures)
    requires Spaced(LedgerOf(w'.ledger, Current(w).id).failures)
    requires w'.drain.next == w.drain.next ==>
      NotBefore(LedgerOf(w'.ledger, Current(w).id).failures) <= w'.clock
    ensures Timed(w')
  {
    var id := Current(w).id;
    forall c' | c' in w'.rows
      ensures RowTimed(c', LedgerOf(w'.ledger, c'.id).failures)
    {
      var c := Origin(w.rows, id, r, c');
    }
    forall j | w'.drain.next <= j < |w'.drain.due|
      ensures NotBefore(LedgerOf(w'.ledger, w'.drain.due[j].id).failures) <= w'.clock
    {
      if j > w.drain.next {
        assert w.drain.due[j].id != id;
      }
    }
    forall i
      ensures Spaced(LedgerOf(w'.ledger, i).failures)
    {
      assert Spaced(LedgerOf(w.ledger, i).failures);
    }
  }

  lemma {:induction false} SpacedAppend(fs: seq<Failure>, f: Failure)
    requires Spaced(fs) && NotBefore(fs) <= f.at
    ensures Spaced(fs + [f])
  {
    var fs' := fs + [f];
    forall k | 0 <= k < |fs'| - 1 && Rescheduled(fs', k)
      ensures fs'[k + 1].at >= fs'[k].at + Pow2(k + 1) * 1000
    {
      assert Rescheduled(fs, k);
    }
  }

  /** The retry instant of the current row has passed. */
  lemma {:induction false} CurrentDue(w: World)
    requires Timed(w) && w.drain.Running? && w.drain.next < |w.drain.due|
    ensures NotBefore(LedgerOf(w.ledger, Current(w).id).failures) <= w.clock
  {
  }

  /** The row that a failure stores: a retry is due no earlier than its backoff allows. */
  lemma {:induction false} FailedRowTimed(c: Command, error: ExecutorError, n: nat, u: nat, l: nat, r: nat, fs: seq<Failure>)
    requires n == |fs| > 0 && fs[n - 1] == Failure(u, IsRetryable(error)) && u <= r
    ensures RowTimed(Rewritten(c, FailureRewrite(error, n, u, l, r)), fs)
  {
    if CanRetry(error, n) {
      BackoffIsExact(n);
    }
  }

  lemma {:induction false} FailTimed(w: World, error: ExecutorError, u: nat, l: nat, r: nat)
    requires Inv(w) && Timed(w) && Enabled(w, Fail(error, u, l, r))
    ensures Timed(Apply(w, Fail(error, u, l, r)))
  {
    hide Inv, Compact, RewriteRow;
    var w' := Apply(w, Fail(error, u, l, r));
    var d := Current(w);
    var n := d.attempts + 1;
    var fs := LedgerOf(w.ledger, d.id).failures;
    var fs' := fs + [Failure(u, IsRetryable(error))];
    CurrentFacts(w);
    CurrentDue(w);
    assert LedgerOf(w'.ledger, d.id).failures == fs' && |fs| == d.attempts;
    SpacedAppend(fs, Failure(u, IsRetryable(error)));
    forall c | c in w.rows && c.id == d.id
      ensures RowTimed(Rewritten(c, FailureRewrite(error, n, u, l, r)), fs')
    {
      FailedRowTimed(c, error, n, u, l, r, fs');
    }
    RewriteTimed(w, w', FailureRewrite(error, n, u, l, r));
  }

  lemma {:induction false} EnqueueTimed(w: World, q: Request, id: string, now: nat)
    requires Inv(w) && Timed(w) && Enabled(w, Enqueue(q, id, now))
    ensures Timed(Apply(w, Enqueue(q, id, now)))
  {
    var c := NewCommand(q, id, now);
    if c.dedupeKey != "" {
      EnqueuedRows(w.rows, c);
    }
    assert LedgerAgrees(LedgerOf(w.ledger, id), id in w.used, Awaited(w.drain) == Some(id));
  }

  lemma {:induction false} BeginTimed(w: World, u: nat)
    requires Inv(w) && Timed(w) && Enabled(w, Begin(u))
    ensures Timed(Apply(w, Begin(u)))
  {
    hide Inv, Compact, RewriteRow;
    var w' := Apply(w, Begin(u));
    CurrentFacts(w);
    CurrentDue(w);
    assert RewriteStep(w, w', ToProcessing(u));
    RewriteTimed(w, w', ToProcessing(u));
  }

  lemma {:induction false} SucceedTimed(w: World, u: nat, p: nat)
    requires Inv(w) && Timed(w) && Enabled(w, Succeed(u, p))
    ensures Timed(Apply(w, Succeed(u, p)))
  {
    hide Inv, Compact, RewriteRow;
    var w' := Apply(w, Succeed(u, p));
    CurrentFacts(w);
    assert RewriteStep(w, w', ToDone(u, p));
    RewriteTimed(w, w', ToDone(u, p));
  }

  lemma {:induction false} StepTimed(w: World, e: Event)
    requires Inv(w) && Timed(w) && Enabled(w, e) && OnTime(e)
    ensures Timed(Apply(w, e))
  {
    match e
    case Enqueue(q, id, now) => EnqueueTimed(w, q, id, now);
    case Start(_, _, _) => StartTimed(w, e);
    case Begin(u) => BeginTimed(w, u);
    case Succeed(u, p) => SucceedTimed(w, u, p);
    case Fail(error, u, l, r) => FailTimed(w, error, u, l, r);
    case Clear =>
    case Finish =>
  }

  lemma {:induction false} RunTimed(w: World, es: seq<Event>)
    requires Inv(w) && Timed(w) && Legal(w, es) && AllOnTime(es)
    ensures Timed(Exec(w, es))
    decreases es
  {
    if es != [] {
      StepTimed(w, es[0]);
      StepKeeps(w, es[0]);
      RunTimed(Apply(w, es[0]), es[1..]);
    }
  }

  lemma {:induction false} SpacedSum(fs: seq<Failure>, k: nat)
    requires Spaced(fs) && k < |fs| && k < MAX_ATTEMPTS
    requires forall i :: 0 <= i < k ==> fs[i].retryable
    ensures fs[k].at >= fs[0].at + (Pow2(k + 1) - 2) * 1000
    decreases k
  {
    if k > 0 {
      SpacedSum(fs, k - 1);
      assert Rescheduled(fs, k - 1);
    }
  }

  /** The k-th failure of a command comes at least (2^k - 2) seconds after its first one, for
      k up to 8, as long as the failures before it were retryable. */
  lemma {:induction false} BackoffSpacesFailures(es: seq<Event>, id: string, k: nat)
    requires Legal(INIT, es) && AllOnTime(es)
    requires var fs := LedgerOf(Exec(INIT, es).ledger, id).failures;
      1 <= k <= 8 && k <= |fs| && forall i :: 0 <= i < k - 1 ==> fs[i].retryable
    ensures var fs := LedgerOf(Exec(INIT, es).ledger, id).failures;
      fs[k - 1].at >= fs[0].at + (Pow2(k) - 2) * 1000
  {
    InitOk();
    RunTimed(INIT, es);
    SpacedSum(LedgerOf(Exec(INIT, es).ledger, id).failures, k - 1);
  }

  /** A row that is FAILED although every failure was retryable used up all eight attempts,
      and the eighth failure came at least 254 seconds after the first. */
  lemma {:induction false} ExhaustionTakesTime(es: seq<Event>, c: Command)
    requires Legal(INIT, es) && AllOnTime(es)
    requires c in Exec(INIT, es).rows && c.status == Failed
    requires forall f :: f in LedgerOf(Exec(INIT, es).ledger, c.id).failures ==> f.retryable
    ensures var fs := LedgerOf(Exec(INIT, es).ledger, c.id).failures;
      |fs| == c.attempts >= 8 && fs[7].at >= fs[0].at + 254_000
  {
    InitOk();
    RunTimed(INIT, es);
    ReachableOk(es);
    var w := Exec(INIT, es);
    var fs := LedgerOf(w.ledger, c.id).failures;
    assert RowTimed(c, fs) && |fs| == c.attempts;
    BackoffIsExact(7);
    assert Pow2(8) == 2 * Pow2(7) && Pow2(7) == 128;
    BackoffSpacesFailures(es, c.id, 8);
  }
}
