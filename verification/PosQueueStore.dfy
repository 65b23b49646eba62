/**
 The exported operations of the queue, which rewrite the stored rows in place.
 `world` is history: it is what ties the stored rows to the runs of PosQueueProtocol.
 */
module PosQueueStore {
  import opened Basics
  import opened StableSort
  import opened Trimming
  import opened PosQueue
  import opened PosQueueCompaction
  import opened PosQueueProtocol
  import opened PosQueueDrain

  datatype EnqueueResult = Rejected(reason: string) | Accepted(command: Command, duplicate: bool)

  /** `PosOfflineDrainResult`. */
  datatype Tally = Tally(attempted: nat, succeeded: nat, failed: nat, stillPending: nat)

  datatype Stats = Stats(total: nat, pending: nat, processing: nat, failed: nat, done: nat, dueNow: nat)

  class Store {
    var rows: seq<Command>
    ghost var world: World

    ghost predicate Valid()
      reads this
    {
      Inv(world) && world.rows == rows
    }

    constructor ()
      ensures Valid() && world == INIT
    {
      rows := [];
      world := INIT;
      assert Compact([]) == [];
    }

    /** `enqueuePosOfflineCommand`.  A duplicate returns the row that is already stored and
        leaves the store as it is; any other request stores exactly one new row. */
    method Enqueue(q: Request, id: string, now: nat) returns (result: EnqueueResult)
      requires Valid() && Enabled(world, Event.Enqueue(q, id, now))
      modifies this
      ensures Valid() && world == Apply(old(world), Event.Enqueue(q, id, now))
      ensures result.Rejected? <==> Trim(IsJsBlank, q.dedupeKey) == ""
      ensures result.Rejected? ==> result.reason == "dedupe_key es requerido para cola offline POS"
      ensures result.Rejected? ==> rows == old(rows)
      ensures result.Accepted? ==>
        var c := result.command;
        && c in rows && c.dedupeKey == Trim(IsJsBlank, q.dedupeKey) && c.company == q.company && c.branch == q.branch
        && c.status != Done
      ensures result.Accepted? ==>
        (result.duplicate <==>
          exists r :: r in old(rows) && r.dedupeKey == Trim(IsJsBlank, q.dedupeKey) && r.company == q.company
                      && r.branch == q.branch && r.status != Done)
      ensures result.Accepted? && result.duplicate ==> result.command in old(rows) && rows == old(rows)
      ensures result.Accepted? && !result.duplicate ==>
        var c := result.command;
        && c.id == id && c.kind == q.kind && c.payload == q.payload
        && c.status == Pending && c.attempts == 0 && c.createdAt == now && c.updatedAt == now
        && c.processedAt == None && c.nextRetryAt == None && c.lastAttemptAt == None && c.lastError == ""
        && (forall r :: r in rows ==> r in old(rows) || r == c)
        && (forall r :: r in old(rows) && r.status != Done ==> r in rows)
    {
      hide Compact, Inv, Trim;
      StepKeeps(world, Event.Enqueue(q, id, now));
      var c := NewCommand(q, id, now);
      if c.dedupeKey == "" {
        world := Apply(world, Event.Enqueue(q, id, now));
        return EnqueueResult.Rejected("dedupe_key es requerido para cola offline POS");
      }
      var existing := FindActive(rows, c);
      FindActiveSpec(rows, c);
      if existing.Some? {
        result := Accepted(existing.value, true);
        UsedIds(world);
        rows := Compact(rows);
      } else {
        result := Accepted(c, false);
        CompactKeepsActive(rows + [c]);
        assert c in rows + [c];
        assert forall d :: d in rows ==> d.id in world.used by {
          UsedIds(world);
        }
        rows := Compact(rows + [c]);
      }
      world := Apply(world, Event.Enqueue(q, id, now));
    }

    /** `clearPosOfflineQueue`. */
    method Clear()
      requires Valid()
      modifies this
      ensures Valid() && world == Apply(old(world), Event.Clear) && rows == []
    {
      StepKeeps(world, Event.Clear);
      rows := [];
      world := Apply(world, Event.Clear);
    }

    /** `getPosOfflineQueueStats`. */
    method Statistics(nowMs: int) returns (stats: Stats)
      ensures stats == Stats(|rows|, Count(rows, Pending), Count(rows, Processing), Count(rows, Failed),
                             Count(rows, Done), |Filter(DueAt(nowMs), rows)|)
      ensures stats.total == stats.pending + stats.processing + stats.failed + stats.done
    {
      var pending, processing, failed, done, dueNow := 0, 0, 0, 0, 0;
      for i := 0 to |rows|
        invariant pending == Count(rows[..i], Pending) && processing == Count(rows[..i], Processing)
        invariant failed == Count(rows[..i], Failed) && done == Count(rows[..i], Done)
        invariant dueNow == |Filter(DueAt(nowMs), rows[..i])|
        invariant i == pending + processing + failed + done
      {
        var row := rows[i];
        assert rows[..i + 1] == rows[..i] + [row];
        forall p: Command -> bool
          ensures Filter(p, rows[..i + 1]) == Filter(p, rows[..i]) + (if p(row) then [row] else [])
        {
          FilterConcat(p, rows[..i], [row]);
        }
        if row.status == Pending {
          pending := pending + 1;
        } else if row.status == Processing {
          processing := processing + 1;
        } else if row.status == Failed {
          failed := failed + 1;
        } else {
          done := done + 1;
        }
        if IsDue(row, nowMs) {
          dueNow := dueNow + 1;
        }
      }
      assert rows[..|rows|] == rows;
      stats := Stats(|rows|, pending, processing, failed, done, dueNow);
    }

    /** A step that lands from outside while the executor is awaited. */
    method Land(e: Event)
      requires Valid() && (e.Enqueue? || e.Clear?) && Enabled(world, e)
      modifies this
      ensures Valid() && world == Apply(old(world), e)
    {
      match e
      case Enqueue(q, id, now) =>
        var _ := Enqueue(q, id, now);
      case Clear =>
        Clear();
    }

    /** `drainPosOfflineQueue`.  `turns` is what happens at each `await`: the steps that land
        meanwhile and the answer.  `handed` collects the commands given to the executor. */
    method Drain(nowMs: Option<int>, maxCommands: Option<int>, at: nat, turns: seq<Turn>)
      returns (result: Tally, handed: seq<Command>)
      requires Valid()
      requires forall t, e :: t in turns && e in t.meanwhile ==> e.Enqueue? || e.Clear?
      requires Legal(world, [Start(nowMs, maxCommands, at)] + TurnEvents(turns))
      modifies this
      ensures Valid() && world == Exec(old(world), [Start(nowMs, maxCommands, at)] + TurnEvents(turns))
      ensures handed == DueRows(old(rows), DrainNow(nowMs, at), DrainLimit(maxCommands))
      ensures result.attempted == |handed| == |turns|
      ensures result.attempted == result.succeeded + result.failed + result.stillPending
      ensures result.succeeded == |set k | 0 <= k < |turns| && turns[k].outcome.Fulfilled?|
      ensures result.stillPending
           == |set k | 0 <= k < |turns| && turns[k].outcome.Rejected? && Retries(turns[k].outcome.error, handed[k].attempts)|
      ensures result.failed
           == |set k | 0 <= k < |turns| && turns[k].outcome.Rejected? && !Retries(turns[k].outcome.error, handed[k].attempts)|
    {
      hide Inv, Exec, Legal, Apply, Enabled, Compact, RewriteRow, DueRows, TurnEvents, Ending, Retries;
      ghost var start := Start(nowMs, maxCommands, at);
      ghost var final := Exec(world, [start] + TurnEvents(turns));
      FirstEvent(world, start, TurnEvents(turns));
      StartEffect(world, nowMs, maxCommands, at);
      StepKeeps(world, start);
      var due := DueRows(rows, DrainNow(nowMs, at), DrainLimit(maxCommands));
      world := Apply(world, start);
      var attempted, succeeded, failed, stillPending := 0, 0, 0, 0;
      handed := [];
      var i := 0;
      assert turns[0..] == turns;
      EndingNone(due[..0], turns[..0]);
      while i < |due|
        invariant 0 <= i <= |due| && i <= |turns|
        invariant Valid() && InDrain(world, due, i)
        invariant Legal(world, TurnEvents(turns[i..])) && Exec(world, TurnEvents(turns[i..])) == final
        invariant handed == due[..i]
        invariant attempted == i == succeeded + failed + stillPending
        invariant succeeded == Ending(due[..i], turns[..i], Done)
        invariant failed == Ending(due[..i], turns[..i], Failed)
        invariant stillPending == Ending(due[..i], turns[..i], Pending)
      {
        TurnsLeft(world, turns[i..]);
        var turn := turns[i];
        var row := due[i];
        SplitTurn(world, turns[i..]);
        assert turns[i..][0] == turn && turns[i..][1..] == turns[i + 1..];
        EndingGrows(due, turns, i);

        attempted := attempted + 1;
        BeginEffect(world, due, i, turn.beganAt);
        StepKeeps(world, Begin(turn.beganAt));
        rows := Compact(RewriteRow(rows, row.id, ToProcessing(turn.beganAt)));
        world := Apply(world, Begin(turn.beganAt));

        handed := handed + [row];
        Await(turn.meanwhile, [OutcomeEvent(turn.outcome)] + TurnEvents(turns[i + 1..]), due, i);

        FirstEvent(world, OutcomeEvent(turn.outcome), TurnEvents(turns[i + 1..]));
        OutcomeEffect(world, due, i, turn.outcome);
        StepKeeps(world, OutcomeEvent(turn.outcome));
        match turn.outcome {
          case Fulfilled(u, p) =>
            succeeded := succeeded + 1;
            rows := Compact(RewriteRow(rows, row.id, ToDone(u, p)));
          case Rejected(error, u, l, r) =>
            var nextAttempts := row.attempts + 1;
            if CanRetry(error, nextAttempts) {
              stillPending := stillPending + 1;
            } else {
              failed := failed + 1;
            }
            rows := Compact(RewriteRow(rows, row.id, FailureRewrite(error, nextAttempts, u, l, r)));
        }
        world := Apply(world, OutcomeEvent(turn.outcome));
        i := i + 1;
      }
      TurnsLeft(world, turns[i..]);
      FinishEffect(world);
      StepKeeps(world, Finish);
      world := Apply(world, Finish);
      assert due[..i] == due && turns[..i] == turns;
      EndingsAre(due, turns);
      result := Tally(attempted, succeeded, failed, stillPending);
    }

    /** The time during which the executor works. */
    method Await(meanwhile: seq<Event>, ghost rest: seq<Event>, ghost due: seq<Command>, ghost next: nat)
      requires Valid() && Awaiting(world, due, next)
      requires forall e :: e in meanwhile ==> e.Enqueue? || e.Clear?
      requires Legal(world, meanwhile + rest)
      modifies this
      ensures Valid() && Awaiting(world, due, next)
      ensures Legal(world, rest) && Exec(world, rest) == Exec(old(world), meanwhile + rest)
    {
      hide Inv, Exec, Legal, Apply, Enabled;
      var k := 0;
      assert meanwhile[0..] == meanwhile;
      while k < |meanwhile|
        invariant 0 <= k <= |meanwhile|
        invariant Valid() && Awaiting(world, due, next)
        invariant Legal(world, meanwhile[k..] + rest)
        invariant Exec(world, meanwhile[k..] + rest) == Exec(old(world), meanwhile + rest)
      {
        var e := meanwhile[k];
        assert meanwhile[k..] + rest == [e] + (meanwhile[k + 1..] + rest);
        FirstEvent(world, e, meanwhile[k + 1..] + rest);
        OutsideEffect(world, e);
        Land(e);
        k := k + 1;
      }
      assert meanwhile[k..] + rest == rest;
    }
  }

  lemma {:induction false} UsedIds(w: World)
    requires Inv(w)
    ensures w.rows == Compact(w.rows) && forall d :: d in w.rows ==> d.id in w.used
  {
  }

  ghost predicate InDrain(w: World, due: seq<Command>, next: nat) {
    w.drain.Running? && !w.drain.awaiting && w.drain.due == due && w.drain.next == next
  }

  ghost predicate Awaiting(w: World, due: seq<Command>, next: nat) {
    w.drain.Running? && w.drain.awaiting && w.drain.due == due && w.drain.next == next < |due|
  }

  lemma {:induction false} FirstEvent(w: World, e: Event, es: seq<Event>)
    requires Legal(w, [e] + es)
    ensures Enabled(w, e) && Legal(Apply(w, e), es)
    ensures Exec(Apply(w, e), es) == Exec(w, [e] + es)
  {
  }

  lemma {:induction false} StartEffect(w: World, nowMs: Option<int>, maxCommands: Option<int>, at: nat)
    requires Enabled(w, Start(nowMs, maxCommands, at))
    ensures var w' := Apply(w, Start(nowMs, maxCommands, at));
      w'.rows == w.rows && InDrain(w', DueRows(w.rows, DrainNow(nowMs, at), DrainLimit(maxCommands)), 0)
  {
  }

  lemma {:induction false} BeginEffect(w: World, due: seq<Command>, i: nat, u: nat)
    requires InDrain(w, due, i) && i < |due| && Enabled(w, Begin(u))
    ensures var w' := Apply(w, Begin(u));
      Awaiting(w', due, i) && w'.rows == Compact(RewriteRow(w.rows, due[i].id, ToProcessing(u)))
  {
  }

  lemma {:induction false} OutcomeEffect(w: World, due: seq<Command>, i: nat, o: Outcome)
    requires Awaiting(w, due, i) && Enabled(w, OutcomeEvent(o))
    ensures var w' := Apply(w, OutcomeEvent(o));
      InDrain(w', due, i + 1) && w'.rows == Compact(RewriteRow(w.rows, due[i].id, OutcomeRewrite(o, due[i])))
  {
  }

  lemma {:induction false} OutsideEffect(w: World, e: Event)
    requires (e.Enqueue? || e.Clear?) && Enabled(w, e)
    ensures Apply(w, e).drain == w.drain
  {
  }

  lemma {:induction false} FinishEffect(w: World)
    requires Legal(w, TurnEvents([]))
    ensures Enabled(w, Finish) && Apply(w, Finish).rows == w.rows
    ensures Exec(w, TurnEvents([])) == Apply(w, Finish)
  {
  }

  lemma {:induction false} EndingNone(due: seq<Command>, turns: seq<Turn>)
    requires |due| == |turns| == 0
    ensures forall s :: Ending(due, turns, s) == 0
  {
  }

  /** The loop and the answers end together. */
  lemma {:induction false} TurnsLeft(w: World, turns: seq<Turn>)
    requires w.drain.Running? && !w.drain.awaiting && Legal(w, TurnEvents(turns))
    ensures turns == [] <==> w.drain.next >= |w.drain.due|
  {
  }

  lemma {:induction false} TurnEventsSplit(turns: seq<Turn>)
    requires turns != []
    ensures var t := turns[0];
      TurnEvents(turns)
      == [Begin(t.beganAt)] + (t.meanwhile + ([OutcomeEvent(t.outcome)] + TurnEvents(turns[1..])))
  {
  }

  lemma {:induction false} SplitTurn(w: World, turns: seq<Turn>)
    requires turns != [] && Legal(w, TurnEvents(turns))
    ensures var t := turns[0];
      var rest := [OutcomeEvent(t.outcome)] + TurnEvents(turns[1..]);
      && Enabled(w, Begin(t.beganAt))
      && Legal(Apply(w, Begin(t.beganAt)), t.meanwhile + rest)
      && Exec(Apply(w, Begin(t.beganAt)), t.meanwhile + rest) == Exec(w, TurnEvents(turns))
  {
    var t := turns[0];
    var rest := [OutcomeEvent(t.outcome)] + TurnEvents(turns[1..]);
    hide Enabled, Apply, Legal, Exec;
    TurnEventsSplit(turns);
    FirstEvent(w, Begin(t.beganAt), t.meanwhile + rest);
  }

  lemma {:induction false} EndingConcat(due: seq<Command>, turns: seq<Turn>, d: Command, t: Turn, s: Status)
    requires |due| == |turns|
    ensures Ending(due + [d], turns + [t], s) == Ending(due, turns, s) + Bit(StatusAfter(t.outcome, d) == s)
  {
    if due == [] {
      assert due + [d] == [d] && turns + [t] == [t];
    } else {
      assert (due + [d])[1..] == due[1..] + [d] && (turns + [t])[1..] == turns[1..] + [t];
      EndingConcat(due[1..], turns[1..], d, t, s);
    }
  }

  /** The turns that end with a status. */
  function Endings(due: seq<Command>, turns: seq<Turn>, s: Status, n: nat): set<nat>
    requires n <= |due| && n <= |turns|
  {
    set k: nat | k < n && StatusAfter(turns[k].outcome, due[k]) == s
  }

  lemma {:induction false} EndingCounts(due: seq<Command>, turns: seq<Turn>, s: Status, n: nat)
    requires n <= |due| && n <= |turns|
    ensures Ending(due[..n], turns[..n], s) == |Endings(due, turns, s, n)|
  {
    hide StatusAfter, Ending;
    if n == 0 {
      EndingNone(due[..0], turns[..0]);
      assert Endings(due, turns, s, 0) == {};
    } else {
      EndingCounts(due, turns, s, n - 1);
      EndingGrows(due, turns, n - 1);
      var before := Endings(due, turns, s, n - 1);
      if StatusAfter(turns[n - 1].outcome, due[n - 1]) == s {
        assert Endings(due, turns, s, n) == before + {n - 1};
      } else {
        assert Endings(due, turns, s, n) == before;
      }
    }
  }

  /** The three counters, by the answers and the attempts of the rows. */
  lemma {:induction false} EndingsAre(due: seq<Command>, turns: seq<Turn>)
    requires |due| == |turns|
    ensures Ending(due, turns, Done) == |set k | 0 <= k < |turns| && turns[k].outcome.Fulfilled?|
    ensures Ending(due, turns, Pending)
         == |set k | 0 <= k < |turns| && turns[k].outcome.Rejected? && Retries(turns[k].outcome.error, due[k].attempts)|
    ensures Ending(due, turns, Failed)
         == |set k | 0 <= k < |turns| && turns[k].outcome.Rejected? && !Retries(turns[k].outcome.error, due[k].attempts)|
  {
    var n := |turns|;
    assert due[..n] == due && turns[..n] == turns;
    EndingCounts(due, turns, Done, n);
    EndingCounts(due, turns, Pending, n);
    EndingCounts(due, turns, Failed, n);
    forall k | 0 <= k < n && turns[k].outcome.Rejected?
      ensures CanRetry(turns[k].outcome.error, due[k].attempts + 1) <==> Retries(turns[k].outcome.error, due[k].attempts)
    {
      RetriesExactly(turns[k].outcome.error, due[k].attempts);
    }
    hide CanRetry, Retries;
    assert (set k | 0 <= k < n && turns[k].outcome.Fulfilled?) == Endings(due, turns, Done, n);
    assert (set k | 0 <= k < n && turns[k].outcome.Rejected? && Retries(turns[k].outcome.error, due[k].attempts))
        == Endings(due, turns, Pending, n);
    assert (set k | 0 <= k < n && turns[k].outcome.Rejected? && !Retries(turns[k].outcome.error, due[k].attempts))
        == Endings(due, turns, Failed, n);
  }

  lemma {:induction false} EndingGrows(due: seq<Command>, turns: seq<Turn>, i: nat)
    requires i < |due| && i < |turns|
    ensures forall s :: Ending(due[..i + 1], turns[..i + 1], s)
                     == Ending(due[..i], turns[..i], s) + Bit(StatusAfter(turns[i].outcome, due[i]) == s)
  {
    assert due[..i + 1] == due[..i] + [due[i]] && turns[..i + 1] == turns[..i] + [turns[i]];
    forall s
      ensures Ending(due[..i + 1], turns[..i + 1], s)
           == Ending(due[..i], turns[..i], s) + Bit(StatusAfter(turns[i].outcome, due[i]) == s)
    {
      EndingConcat(due[..i], turns[..i], due[i], turns[i], s);
    }
  }
}
