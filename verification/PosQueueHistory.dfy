/** What a stored row tells of its past, and what never happens to an accepted command. */
module PosQueueHistory {
  import opened Basics
  import opened Trimming
  import opened PosQueue
  import opened PosQueueCompaction
  import opened PosQueueProtocol
  import opened PosQueueRuns
  import opened PosQueueDrain

  /** The stamps of a row agree with its status, its attempts and the clock. */
  ghost predicate StampsAgree(c: Command, clock: nat) {
    && c.createdAt <= c.updatedAt <= clock
    && (c.lastAttemptAt.Some? <==> c.attempts > 0)
    && (c.lastAttemptAt.Some? ==> c.createdAt <= c.lastAttemptAt.value <= clock)
    && (c.processedAt.Some? <==> c.status == Done)
    && (c.processedAt.Some? ==> c.updatedAt <= c.processedAt.value <= clock)
    && |c.lastError| <= ERROR_TEXT_LIMIT
    && (c.attempts == 0 || c.status == Done ==> c.lastError == "")
    && c.dedupeKey != "" && IsTrimmed(IsJsBlank, c.dedupeKey)
  }

  /** What the request fixed never changes; attempts and the time of the last write only grow. */
  predicate Later(c: Command, d: Command) {
    && d.id == c.id && d.kind == c.kind && d.company == c.company && d.branch == c.branch
    && d.dedupeKey == c.dedupeKey && d.payload == c.payload && d.createdAt == c.createdAt
    && c.attempts <= d.attempts && c.updatedAt <= d.updatedAt
  }

  /** A rewrite of a row with `n` attempts whose clock readings lie between two instants. */
  predicate Timely(r: Rewrite, n: nat, from: nat, to: nat) {
    match r
    case ToProcessing(u) => from <= u <= to
    case ToDone(u, p) => from <= u <= p <= to
    case ToRetry(m, u, l, _, e) => m == n + 1 && from <= u <= l <= to && |e| <= ERROR_TEXT_LIMIT
    case ToFailed(m, u, l, e) => m == n + 1 && from <= u <= l <= to && |e| <= ERROR_TEXT_LIMIT
  }

  lemma {:induction false} RewrittenStamps(c: Command, r: Rewrite, from: nat, to: nat)
    requires StampsAgree(c, from) && IsActive(c) && Timely(r, c.attempts, from, to)
    ensures StampsAgree(Rewritten(c, r), to) && Later(c, Rewritten(c, r))
  {
  }

  ghost predicate Stamped(w: World) {
    forall c :: c in w.rows ==> StampsAgree(c, w.clock)
  }

  /** `c` was stored at some point; what is stored under its id now came later. */
  ghost predicate Follows(w: World, c: Command) {
    c.id in w.used && forall d :: d in w.rows && d.id == c.id ==> Later(c, d)
  }

  /** The rewrite that a step of the drain makes. */
  function RewriteOf(w: World, e: Event): Rewrite
    requires Enabled(w, e) && (e.Begin? || e.Succeed? || e.Fail?)
  {
    match e
    case Begin(u) => ToProcessing(u)
    case Succeed(u, p) => ToDone(u, p)
    case Fail(error, u, l, r) => FailureRewrite(error, Current(w).attempts + 1, u, l, r)
  }

  lemma {:induction false} StepRewrites(w: World, e: Event)
    requires Enabled(w, e) && (e.Begin? || e.Succeed? || e.Fail?)
    ensures Apply(w, e).rows == Compact(RewriteRow(w.rows, Current(w).id, RewriteOf(w, e)))
    ensures Timely(RewriteOf(w, e), Current(w).attempts, w.clock, Apply(w, e).clock)
    ensures w.clock <= Apply(w, e).clock && Apply(w, e).used == w.used
  {
  }

  /** Where a row stored after a step of the drain comes from. */
  lemma {:induction false} DrainStepRow(w: World, e: Event, d: Command) returns (c: Command)
    requires Inv(w) && Stamped(w) && Enabled(w, e) && (e.Begin? || e.Succeed? || e.Fail?)
    requires d in Apply(w, e).rows
    ensures c in w.rows && c.id == d.id && Later(c, d) && StampsAgree(d, Apply(w, e).clock)
  {
    hide Compact, RewriteRow, StampsAgree;
    StepRewrites(w, e);
    CurrentFacts(w);
    c := Origin(w.rows, Current(w).id, RewriteOf(w, e), d);
    assert StampsAgree(c, w.clock);
    if c.id == Current(w).id {
      RewrittenStamps(c, RewriteOf(w, e), w.clock, Apply(w, e).clock);
    } else {
      LaterClock(c, w.clock, Apply(w, e).clock);
    }
  }

  lemma {:induction false} LaterClock(c: Command, from: nat, to: nat)
    requires StampsAgree(c, from) && from <= to
    ensures StampsAgree(c, to) && Later(c, c)
  {
  }

  lemma {:induction false} NewStamps(q: Request, id: string, now: nat)
    requires NewCommand(q, id, now).dedupeKey != ""
    ensures StampsAgree(NewCommand(q, id, now), now)
  {
    TrimSpec(IsJsBlank, q.dedupeKey);
  }

  lemma {:induction false} StepStamped(w: World, e: Event)
    requires Inv(w) && Stamped(w) && Enabled(w, e)
    ensures Stamped(Apply(w, e))
  {
    hide StampsAgree, Inv, Compact;
    var w' := Apply(w, e);
    forall d | d in w'.rows
      ensures StampsAgree(d, w'.clock)
    {
      if e.Begin? || e.Succeed? || e.Fail? {
        var c := DrainStepRow(w, e, d);
      } else if e.Enqueue? {
        var n := NewCommand(e.request, e.id, e.now);
        EnqueuedRows(w.rows, n);
        if d in w.rows {
          LaterClock(d, w.clock, w'.clock);
        } else {
          NewStamps(e.request, e.id, e.now);
        }
      } else {
        LaterClock(d, w.clock, w'.clock);
      }
    }
  }

  lemma {:induction false} StepFollows(w: World, e: Event, c: Command)
    requires Inv(w) && Stamped(w) && Enabled(w, e) && Follows(w, c)
    ensures Follows(Apply(w, e), c)
  {
    hide StampsAgree, Inv, Compact;
    var w' := Apply(w, e);
    forall d | d in w'.rows && d.id == c.id
      ensures Later(c, d)
    {
      if e.Begin? || e.Succeed? || e.Fail? {
        var b := DrainStepRow(w, e, d);
        assert Later(c, b);
      } else if e.Enqueue? {
        EnqueuedRows(w.rows, NewCommand(e.request, e.id, e.now));
      }
    }
  }

  lemma {:induction false} RunStamped(w: World, es: seq<Event>)
    requires Inv(w) && Stamped(w) && Legal(w, es)
    ensures Stamped(Exec(w, es))
    ensures forall c :: Follows(w, c) ==> Follows(Exec(w, es), c)
    decreases es
  {
    hide Stamped, Follows, Inv, Apply, Enabled;
    if es != [] {
      StepStamped(w, es[0]);
      StepKeeps(w, es[0]);
      forall c | Follows(w, c)
        ensures Follows(Apply(w, es[0]), c)
      {
        StepFollows(w, es[0], c);
      }
      RunStamped(Apply(w, es[0]), es[1..]);
    }
  }

  /** In every run each stored row is stamped consistently: it was created, written and last
      attempted in this order of time, it has an attempt time exactly when it was attempted and
      a processing time exactly when it is DONE. */
  lemma {:induction false} StampsTellHistory(es: seq<Event>, c: Command)
    requires Legal(INIT, es) && c in Exec(INIT, es).rows
    ensures StampsAgree(c, Exec(INIT, es).clock)
  {
    InitOk();
    RunStamped(INIT, es);
  }

  /** Between any two points of a run a command keeps what its request fixed, and never loses attempts. */
  lemma {:induction false} CommandsKeepTheirRequest(before: seq<Event>, after: seq<Event>, c: Command, d: Command)
    requires Legal(INIT, before) && Legal(INIT, before + after)
    requires c in Exec(INIT, before).rows && d in Exec(INIT, before + after).rows && c.id == d.id
    ensures Later(c, d)
  {
    ReachableOk(before);
    ExecConcat(INIT, before, after);
    InitOk();
    RunStamped(INIT, before);
    var w := Exec(INIT, before);
    forall b | b in w.rows && b.id == c.id
      ensures Later(c, b)
    {
      SameIdSameRow(w.rows, b, c);
    }
    assert Follows(w, c);
    RunStamped(w, after);
  }

  // ---------------------------------------------------------------- nothing is lost

  ghost predicate HasActive(rows: seq<Command>, id: string) {
    exists c :: c in rows && c.id == id && IsActive(c)
  }

  /** If the id was given to a command, that is stored and active, or has succeeded. */
  ghost predicate Held(w: World, id: string) {
    id in w.used ==> HasActive(w.rows, id) || LedgerOf(w.ledger, id).wins == 1
  }

  lemma {:induction false} RewriteKeepsActive(rows: seq<Command>, target: string, r: Rewrite, id: string)
    requires HasActive(rows, id) && (id != target || !r.ToDone?)
    ensures HasActive(Compact(RewriteRow(rows, target, r)), id)
  {
    hide Compact, RewriteRow;
    var c :| c in rows && c.id == id && IsActive(c);
    if id == target {
      RewrittenStored(rows, c, r);
    } else {
      StoredUnlessRewritten(rows, target, r, c);
    }
  }

  lemma {:induction false} DrainStepHolds(w: World, e: Event, id: string)
    requires Inv(w) && Held(w, id) && Enabled(w, e) && (e.Begin? || e.Succeed? || e.Fail?)
    ensures Held(Apply(w, e), id)
  {
    hide Compact, RewriteRow, HasActive;
    StepRewrites(w, e);
    CurrentFacts(w);
    if HasActive(w.rows, id) && (id != Current(w).id || !e.Succeed?) {
      RewriteKeepsActive(w.rows, Current(w).id, RewriteOf(w, e), id);
    }
  }

  lemma {:induction false} WriteHolds(raw: seq<Command>, id: string)
    requires HasActive(raw, id)
    ensures HasActive(Compact(raw), id)
  {
    hide Compact;
    CompactKeepsActive(raw);
  }

  lemma {:induction false} EnqueueHolds(w: World, q: Request, newId: string, now: nat, id: string)
    requires Held(w, id) && Enabled(w, Enqueue(q, newId, now))
    ensures Held(Apply(w, Enqueue(q, newId, now)), id)
  {
    hide Compact, FindActive;
    var c := NewCommand(q, newId, now);
    if HasActive(w.rows, id) {
      WriteHolds(w.rows, id);
      assert HasActive(w.rows + [c], id);
      WriteHolds(w.rows + [c], id);
    }
    if id == newId {
      assert c in w.rows + [c];
      WriteHolds(w.rows + [c], id);
    }
  }

  lemma {:induction false} RunHolds(w: World, es: seq<Event>, id: string)
    requires Inv(w) && Held(w, id) && Legal(w, es) && Clear !in es
    ensures Held(Exec(w, es), id)
    decreases es
  {
    hide Inv, Compact;
    if es != [] {
      match es[0] {
        case Enqueue(q, newId, now) => EnqueueHolds(w, q, newId, now, id);
        case Begin(_) => DrainStepHolds(w, es[0], id);
        case Succeed(_, _) => DrainStepHolds(w, es[0], id);
        case Fail(_, _, _, _) => DrainStepHolds(w, es[0], id);
        case Clear => assert false;
        case _ =>
      }
      StepKeeps(w, es[0]);
      RunHolds(Apply(w, es[0]), es[1..], id);
    }
  }

  /** No accepted command is ever lost but by a clear: from any point of a run on, a command that
      was active then, or was accepted since, is stored and active exactly until it has succeeded. */
  lemma {:induction false} NothingIsLost(before: seq<Event>, after: seq<Event>, id: string)
    requires Legal(INIT, before) && Legal(INIT, before + after) && Clear !in after
    requires id in Exec(INIT, before + after).used
    requires id !in Exec(INIT, before).used || HasActive(Exec(INIT, before).rows, id)
    ensures var w := Exec(INIT, before + after);
      HasActive(w.rows, id) <==> LedgerOf(w.ledger, id).wins == 0
  {
    ReachableOk(before);
    ExecConcat(INIT, before, after);
    RunHolds(Exec(INIT, before), after, id);
    ReachableOk(before + after);
    var w := Exec(INIT, before + after);
    assert LedgerAgrees(LedgerOf(w.ledger, id), id in w.used, Awaited(w.drain) == Some(id));
  }
}
