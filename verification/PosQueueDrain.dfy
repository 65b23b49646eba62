/** One whole drain: which rows it takes, in which order, and how it moves the statistics. */
module PosQueueDrain {
  import opened Basics
  import opened StableSort
  import opened PosQueue
  import opened PosQueueCompaction
  import opened PosQueueProtocol

  /** How the executor settles, with the clock readings of the write that follows. */
  datatype Outcome =
    | Fulfilled(updatedAt: nat, processedAt: nat)
    | Rejected(error: ExecutorError, updatedAt: nat, lastAttemptAt: nat, retryFrom: nat)

  /** One turn of the drain loop: the steps in `meanwhile` land while the executor is awaited. */
  datatype Turn = Turn(beganAt: nat, meanwhile: seq<Event>, outcome: Outcome)

  function OutcomeEvent(o: Outcome): Event {
    match o
    case Fulfilled(u, p) => Succeed(u, p)
    case Rejected(e, u, l, r) => Fail(e, u, l, r)
  }

  function TurnEvents(turns: seq<Turn>): seq<Event> {
    if turns == [] then [Finish]
    else [Begin(turns[0].beganAt)] + turns[0].meanwhile + [OutcomeEvent(turns[0].outcome)] + TurnEvents(turns[1..])
  }

  // ---------------------------------------------------------------- the rows a drain takes

  lemma {:induction false} TakenComeFirst(s: seq<Command>, n: nat)
    requires Sorted(CreatedFirst, s)
    ensures Sorted(CreatedFirst, Take(s, n))
    ensures forall d, r :: d in Take(s, n) && r in s && r !in Take(s, n) ==> d.createdAt <= r.createdAt
  {
  }

  /** The oldest min(limit, #due) due rows in the order of creation; a due row that is left
      behind was created no earlier than any row taken. */
  lemma {:induction false} DueRowsAreOldest(rows: seq<Command>, nowMs: int, limit: nat)
    ensures var due := Filter(DueAt(nowMs), rows);
      |DueRows(rows, nowMs, limit)| == if |due| <= limit then |due| else limit
    ensures Sorted(CreatedFirst, DueRows(rows, nowMs, limit))
    ensures forall d :: d in DueRows(rows, nowMs, limit) ==> d in rows && IsDue(d, nowMs)
    ensures forall d, r ::
              d in DueRows(rows, nowMs, limit) && r in rows && IsDue(r, nowMs) && r !in DueRows(rows, nowMs, limit)
              ==> d.createdAt <= r.createdAt
  {
    OrdersAreTotal();
    DueRowsSpec(rows, nowMs, limit);
    var due := Filter(DueAt(nowMs), rows);
    FilterIn(DueAt(nowMs), rows);
    SortSorts(CreatedFirst, due);
    TakenComeFirst(Sort(CreatedFirst, due), limit);
    forall r | r in rows && IsDue(r, nowMs)
      ensures r in Sort(CreatedFirst, due)
    {
      assert DueAt(nowMs)(r);
    }
  }

  /** Rows created at the same instant are taken in the order in which they are stored. */
  lemma {:induction false} DueRowsTies(rows: seq<Command>, nowMs: int, limit: nat, t: nat)
    ensures Filter(CreatedAt(t), DueRows(rows, nowMs, limit)) <= Filter(CreatedAt(t), Filter(DueAt(nowMs), rows))
  {
    hide Sort, Filter;
    var ordered := Sort(CreatedFirst, Filter(DueAt(nowMs), rows));
    CreatedStable(Filter(DueAt(nowMs), rows), t);
    var taken := DueRows(rows, nowMs, limit);
    assert ordered == taken + ordered[|taken|..];
    FilterConcat(CreatedAt(t), taken, ordered[|taken|..]);
  }

  // ---------------------------------------------------------------- counting rows by status

  function HasStatus(s: Status): Command -> bool {
    (c: Command) => c.status == s
  }

  function Count(rows: seq<Command>, s: Status): nat {
    |Filter(HasStatus(s), rows)|
  }

  lemma {:induction false} PermutationCount(p: Command -> bool, a: seq<Command>, b: seq<Command>)
    requires multiset(a) == multiset(b)
    ensures |Filter(p, a)| == |Filter(p, b)|
  {
    forall x
      ensures multiset(Filter(p, a))[x] == multiset(Filter(p, b))[x]
    {
      FilterMultiset(p, a, x);
      FilterMultiset(p, b, x);
    }
    assert multiset(Filter(p, a)) == multiset(Filter(p, b));
    assert |multiset(Filter(p, a))| == |multiset(Filter(p, b))|;
  }

  lemma {:induction false} FilterTwice(p: Command -> bool, q: Command -> bool, rows: seq<Command>)
    requires forall c :: p(c) ==> q(c)
    ensures Filter(p, Filter(q, rows)) == Filter(p, rows)
  {
    if rows != [] {
      FilterTwice(p, q, rows[1..]);
      if q(rows[0]) {
        FilterCons(p, rows[0], Filter(q, rows[1..]));
      } else {
        assert Filter(q, rows) == Filter(q, rows[1..]);
      }
    }
  }

  /** The number of rows with status `s` that a write keeps of `n`. */
  function Capped(n: int, s: Status): int {
    if s == Done && n > DONE_KEEP then DONE_KEEP else n
  }

  /** A write caps the number of DONE rows at 50 and changes no other count. */
  lemma {:induction false} CompactCount(rows: seq<Command>, s: Status)
    ensures Count(Compact(rows), s) == Capped(Count(rows, s), s)
  {
    if s == Done {
      CompactKeepsNewestDone(rows);
      FilterSame(HasStatus(Done), IsDone, rows);
      FilterSame(HasStatus(Done), IsDone, Compact(rows));
    } else {
      CompactKeepsActive(rows);
      FilterTwice(HasStatus(s), IsActive, rows);
      FilterTwice(HasStatus(s), IsActive, Compact(rows));
      PermutationCount(HasStatus(s), Filter(IsActive, rows), Filter(IsActive, Compact(rows)));
    }
  }

  lemma {:induction false} RewriteNothing(rows: seq<Command>, id: string, r: Rewrite)
    requires forall d :: d in rows ==> d.id != id
    ensures RewriteRow(rows, id, r) == rows
  {
    if rows != [] {
      RewriteNothing(rows[1..], id, r);
    }
  }

  /** Rewriting the only row with an id moves one unit between two counts. */
  lemma {:induction false} RewriteCount(rows: seq<Command>, c: Command, r: Rewrite, s: Status)
    requires DistinctIds(rows) && c in rows
    ensures Count(RewriteRow(rows, c.id, r), s) + Bit(c.status == s) == Count(rows, s) + Bit(Rewritten(c, r).status == s)
  {
    hide Filter;
    var rest := rows[1..];
    assert rows == [rows[0]] + rest;
    FilterCons(HasStatus(s), rows[0], rest);
    FilterCons(HasStatus(s), Touch(rows[0], c.id, r), RewriteRow(rest, c.id, r));
    if rows[0].id == c.id {
      RewriteNothing(rest, c.id, r);
      SameIdSameRow(rows, rows[0], c);
    } else {
      RewriteCount(rest, c, r, s);
    }
  }

  /** A write of the drain: the current row changes its status, then the DONE rows are capped. */
  lemma {:induction false} WriteCount(rows: seq<Command>, c: Command, r: Rewrite, s: Status)
    requires DistinctIds(rows) && c in rows
    ensures var n := Count(rows, s) + Bit(Rewritten(c, r).status == s) - Bit(c.status == s);
      Count(Compact(RewriteRow(rows, c.id, r)), s) == Capped(n, s)
  {
    RewriteCount(rows, c, r, s);
    CompactCount(RewriteRow(rows, c.id, r), s);
  }

  // ---------------------------------------------------------------- statistics of a quiet drain

  /** The status a turn leaves its row with. */
  function StatusAfter(o: Outcome, row: Command): Status {
    match o
    case Fulfilled(_, _) => Done
    case Rejected(e, _, _, _) => if CanRetry(e, row.attempts + 1) then Pending else Failed
  }

  /** How many of the rows end with status `s`, by the answers of the executor alone. */
  function Ending(due: seq<Command>, turns: seq<Turn>, s: Status): nat
    requires |due| == |turns|
  {
    if turns == [] then 0
    else Bit(StatusAfter(turns[0].outcome, due[0]) == s) + Ending(due[1..], turns[1..], s)
  }

  /** Nothing lands while the executor is awaited. */
  predicate Quiet(turns: seq<Turn>) {
    forall t :: t in turns ==> t.meanwhile == []
  }

  /** The rows still to be drained are stored exactly as the drain read them. */
  ghost predicate Undisturbed(w: World) {
    && w.drain.Running? && !w.drain.awaiting && w.drain.next <= |w.drain.due|
    && forall j :: w.drain.next <= j < |w.drain.due| ==> w.drain.due[j] in w.rows
  }

  lemma {:induction false} StoredUnlessRewritten(rows: seq<Command>, id: string, r: Rewrite, d: Command)
    requires d in rows && d.id != id && IsActive(d)
    ensures d in Compact(RewriteRow(rows, id, r))
  {
    RewriteAt(rows, id, r);
    var i :| 0 <= i < |rows| && rows[i] == d;
    assert RewriteRow(rows, id, r)[i] == d;
    CompactKeepsActive(RewriteRow(rows, id, r));
  }

  lemma {:induction false} RewrittenStored(rows: seq<Command>, c: Command, r: Rewrite)
    requires c in rows && IsActive(Rewritten(c, r))
    ensures Rewritten(c, r) in Compact(RewriteRow(rows, c.id, r))
  {
    RewriteAt(rows, c.id, r);
    var i :| 0 <= i < |rows| && rows[i] == c;
    assert RewriteRow(rows, c.id, r)[i] == Rewritten(c, r);
    CompactKeepsActive(RewriteRow(rows, c.id, r));
  }

  function OutcomeRewrite(o: Outcome, row: Command): Rewrite {
    match o
    case Fulfilled(u, p) => ToDone(u, p)
    case Rejected(e, u, l, r) => FailureRewrite(e, row.attempts + 1, u, l, r)
  }

  /** The stored rows after a quiet turn for `row`. */
  function TurnRows(rows: seq<Command>, row: Command, t: Turn): seq<Command> {
    var marked := Compact(RewriteRow(rows, row.id, ToProcessing(t.beganAt)));
    Compact(RewriteRow(marked, row.id, OutcomeRewrite(t.outcome, row)))
  }

  /** A quiet turn moves the current row to its new status; DONE rows beyond 50 are dropped. */
  lemma {:induction false} TurnMoves(rows: seq<Command>, row: Command, t: Turn, s: Status)
    requires DistinctIds(rows) && rows == Compact(rows) && row in rows && IsActive(row)
    ensures Count(TurnRows(rows, row, t), s)
         == Capped(Count(rows, s) - Bit(row.status == s) + Bit(StatusAfter(t.outcome, row) == s), s)
  {
    var mark, settle := ToProcessing(t.beganAt), OutcomeRewrite(t.outcome, row);
    hide Compact, RewriteRow, Count;
    var rows1 := Compact(RewriteRow(rows, row.id, mark));
    CompactCount(rows, s);
    WriteCount(rows, row, mark, s);
    RewrittenStored(rows, row, mark);
    WriteRows(rows, row.id, mark);
    WriteCount(rows1, Rewritten(row, mark), settle, s);
  }

  lemma {:induction false} TurnKeepsOthers(rows: seq<Command>, row: Command, t: Turn, d: Command)
    requires d in rows && d.id != row.id && IsActive(d)
    ensures d in TurnRows(rows, row, t)
  {
    StoredUnlessRewritten(rows, row.id, ToProcessing(t.beganAt), d);
    StoredUnlessRewritten(Compact(RewriteRow(rows, row.id, ToProcessing(t.beganAt))), row.id,
                          OutcomeRewrite(t.outcome, row), d);
  }

  /** A row waiting in an undisturbed drain is neither DONE nor PROCESSING. */
  lemma {:induction false} WaitingIsActive(w: World, j: nat)
    requires Inv(w) && Undisturbed(w) && w.drain.next <= j < |w.drain.due|
    ensures IsActive(w.drain.due[j]) && w.drain.due[j].status != Processing
  {
  }

  predicate TurnEnabled(w: World, t: Turn) {
    Enabled(w, Begin(t.beganAt)) && Enabled(Apply(w, Begin(t.beganAt)), OutcomeEvent(t.outcome))
  }

  function AfterTurn(w: World, t: Turn): World
    requires TurnEnabled(w, t)
  {
    Apply(Apply(w, Begin(t.beganAt)), OutcomeEvent(t.outcome))
  }

  lemma {:induction false} TurnShape(w: World, t: Turn)
    requires TurnEnabled(w, t)
    ensures w.drain.Running? && w.drain.next < |w.drain.due|
    ensures var w' := AfterTurn(w, t);
      && w'.drain.Running? && !w'.drain.awaiting
      && w'.drain.due == w.drain.due && w'.drain.next == w.drain.next + 1
      && w'.rows == TurnRows(w.rows, Current(w), t)
  {
    hide Compact, RewriteRow;
  }

  lemma {:induction false} WaitingStayStored(w: World, w': World, t: Turn)
    requires Inv(w) && Undisturbed(w) && w.drain.next < |w.drain.due|
    requires w'.drain.Running? && !w'.drain.awaiting
    requires w'.drain.due == w.drain.due && w'.drain.next == w.drain.next + 1
    requires w'.rows == TurnRows(w.rows, Current(w), t)
    ensures Undisturbed(w')
  {
    forall j | w'.drain.next <= j < |w'.drain.due|
      ensures w'.drain.due[j] in w'.rows
    {
      WaitingIsActive(w, j);
      assert w.drain.due[j].id != Current(w).id;
      TurnKeepsOthers(w.rows, Current(w), t, w.drain.due[j]);
    }
  }

  lemma {:induction false} QuietTurn(w: World, t: Turn)
    requires Inv(w) && Undisturbed(w) && TurnEnabled(w, t)
    ensures Inv(AfterTurn(w, t)) && Undisturbed(AfterTurn(w, t))
  {
    StepKeeps(w, Begin(t.beganAt));
    StepKeeps(Apply(w, Begin(t.beganAt)), OutcomeEvent(t.outcome));
    TurnShape(w, t);
    WaitingStayStored(w, AfterTurn(w, t), t);
  }

  /** The first turn of a legal quiet run. */
  lemma {:induction false} FirstTurn(w: World, turns: seq<Turn>)
    requires turns != [] && turns[0].meanwhile == [] && Legal(w, TurnEvents(turns))
    ensures TurnEnabled(w, turns[0])
    ensures Legal(AfterTurn(w, turns[0]), TurnEvents(turns[1..]))
    ensures Exec(AfterTurn(w, turns[0]), TurnEvents(turns[1..])) == Exec(w, TurnEvents(turns))
  {
  }

  lemma {:induction false} FinishRun(w: World)
    requires Legal(w, [Finish])
    ensures Exec(w, [Finish]) == Apply(w, Finish) && Enabled(w, Finish)
  {
  }

  /** The stored rows after quiet turns for the rows of `due`, in their order. */
  function TurnsRows(rows: seq<Command>, due: seq<Command>, turns: seq<Turn>): seq<Command>
    requires |due| == |turns|
    decreases turns
  {
    if turns == [] then rows else TurnsRows(TurnRows(rows, due[0], turns[0]), due[1..], turns[1..])
  }

  lemma {:induction false} QuietTurns(w: World, turns: seq<Turn>)
    requires Inv(w) && Undisturbed(w) && Quiet(turns) && Legal(w, TurnEvents(turns))
    ensures |turns| == |w.drain.due| - w.drain.next
    ensures Exec(w, TurnEvents(turns)).rows == TurnsRows(w.rows, w.drain.due[w.drain.next..], turns)
    decreases turns
  {
    var rest := w.drain.due[w.drain.next..];
    if turns == [] {
      FinishRun(w);
    } else {
      FirstTurn(w, turns);
      QuietTurn(w, turns[0]);
      TurnShape(w, turns[0]);
      var w' := AfterTurn(w, turns[0]);
      QuietTurns(w', turns[1..]);
      assert rest[1..] == w'.drain.due[w'.drain.next..];
    }
  }

  /** Rows taken by a drain, all of them still stored as they were taken. */
  ghost predicate Taken(rows: seq<Command>, due: seq<Command>) {
    && DistinctIds(rows) && rows == Compact(rows) && DistinctIds(due)
    && forall d :: d in due ==> d in rows && d.status != Done && d.status != Processing
  }

  lemma {:induction false} TakenAfterTurn(rows: seq<Command>, due: seq<Command>, t: Turn)
    requires Taken(rows, due) && due != []
    ensures Taken(TurnRows(rows, due[0], t), due[1..])
  {
    var mark, settle := ToProcessing(t.beganAt), OutcomeRewrite(t.outcome, due[0]);
    WriteRows(rows, due[0].id, mark);
    WriteRows(Compact(RewriteRow(rows, due[0].id, mark)), due[0].id, settle);
    forall d | d in due[1..]
      ensures d in TurnRows(rows, due[0], t)
    {
      assert d in due && d.id != due[0].id;
      TurnKeepsOthers(rows, due[0], t, d);
    }
  }

  lemma {:induction false} CountSplit(due: seq<Command>, s: Status)
    ensures due == [] ==> Count(due, s) == 0
    ensures due != [] ==> Count(due, s) == Bit(due[0].status == s) + Count(due[1..], s)
  {
  }

  lemma {:induction false} TurnsCount(rows: seq<Command>, due: seq<Command>, turns: seq<Turn>, s: Status)
    requires |due| == |turns| && Taken(rows, due)
    ensures Count(TurnsRows(rows, due, turns), s)
         == Capped(Count(rows, s) - Count(due, s) + Ending(due, turns, s), s)
    decreases turns
  {
    hide Compact, TurnRows, Count;
    CountSplit(due, s);
    if turns == [] {
      CompactCount(rows, s);
    } else {
      TakenAfterTurn(rows, due, turns[0]);
      assert due[0] in due;
      TurnMoves(rows, due[0], turns[0], s);
      TurnsCount(TurnRows(rows, due[0], turns[0]), due[1..], turns[1..], s);
      NoneTakenDone(due, s);
      NoneTakenDone(due[1..], s);
    }
  }

  lemma {:induction false} NoneTakenDone(due: seq<Command>, s: Status)
    requires forall d :: d in due ==> d.status != Done && d.status != Processing
    ensures s == Done || s == Processing ==> Count(due, s) == 0
  {
    if s == Done || s == Processing {
      FilterNone(HasStatus(s), due);
    }
  }

  lemma {:induction false} StartedDrain(w: World, nowMs: Option<int>, limit: Option<int>, at: nat, turns: seq<Turn>)
    requires Inv(w) && Legal(w, [Start(nowMs, limit, at)] + TurnEvents(turns))
    ensures Enabled(w, Start(nowMs, limit, at))
    ensures var w1 := Apply(w, Start(nowMs, limit, at));
      && Inv(w1) && Undisturbed(w1) && w1.drain.next == 0 && w1.rows == w.rows
      && w1.drain.due == DueRows(w.rows, DrainNow(nowMs, at), DrainLimit(limit))
      && Legal(w1, TurnEvents(turns))
      && Exec(w1, TurnEvents(turns)) == Exec(w, [Start(nowMs, limit, at)] + TurnEvents(turns))
  {
    var es := [Start(nowMs, limit, at)] + TurnEvents(turns);
    assert es[0] == Start(nowMs, limit, at) && es[1..] == TurnEvents(turns);
    StepKeeps(w, es[0]);
    DueRowsSpec(w.rows, DrainNow(nowMs, at), DrainLimit(limit));
  }

  lemma {:induction false} DueRowsTaken(w: World, nowMs: int, limit: nat)
    requires Inv(w) && w.drain == Idle
    ensures Taken(w.rows, DueRows(w.rows, nowMs, limit))
  {
    DueRowsSpec(w.rows, nowMs, limit);
    SubDistinct(w.rows, DueRows(w.rows, nowMs, limit));
  }

  lemma {:induction false} QuietDrainRows(w: World, nowMs: Option<int>, limit: Option<int>, at: nat, turns: seq<Turn>)
    requires Inv(w) && w.drain == Idle && Quiet(turns)
    requires Legal(w, [Start(nowMs, limit, at)] + TurnEvents(turns))
    ensures var due := DueRows(w.rows, DrainNow(nowMs, at), DrainLimit(limit));
      && |turns| == |due|
      && Exec(w, [Start(nowMs, limit, at)] + TurnEvents(turns)).rows == TurnsRows(w.rows, due, turns)
  {
    StartedDrain(w, nowMs, limit, at, turns);
    var w1 := Apply(w, Start(nowMs, limit, at));
    QuietTurns(w1, turns);
    assert w1.drain.due[0..] == w1.drain.due;
  }

  /** A drain during which nothing else touches the queue: DONE grows by the successes up to
      the 50 kept, PROCESSING does not change, and PENDING and FAILED change by exactly the
      rows taken and the answers given. */
  lemma {:induction false} QuietDrainStatistics(w: World, nowMs: Option<int>, limit: Option<int>, at: nat, turns: seq<Turn>)
    requires Inv(w) && w.drain == Idle && Quiet(turns)
    requires Legal(w, [Start(nowMs, limit, at)] + TurnEvents(turns))
    ensures var due := DueRows(w.rows, DrainNow(nowMs, at), DrainLimit(limit));
      var rows' := Exec(w, [Start(nowMs, limit, at)] + TurnEvents(turns)).rows;
      && |turns| == |due|
      && (var n := Count(w.rows, Done) + Ending(due, turns, Done);
          Count(rows', Done) == if n > 50 then 50 else n)
      && Count(rows', Processing) == Count(w.rows, Processing)
      && Count(rows', Pending) == Count(w.rows, Pending) - Count(due, Pending) + Ending(due, turns, Pending)
      && Count(rows', Failed) == Count(w.rows, Failed) - Count(due, Failed) + Ending(due, turns, Failed)
  {
    hide Count, Compact, TurnsRows, Exec, Legal, Ending;
    QuietDrainRows(w, nowMs, limit, at, turns);
    DueRowsTaken(w, DrainNow(nowMs, at), DrainLimit(limit));
    StatisticsMove(w.rows, DueRows(w.rows, DrainNow(nowMs, at), DrainLimit(limit)), turns);
  }

  lemma {:induction false} StatisticsMove(rows: seq<Command>, due: seq<Command>, turns: seq<Turn>)
    requires |due| == |turns| && Taken(rows, due)
    ensures var rows' := TurnsRows(rows, due, turns);
      && Count(rows', Done) == Capped(Count(rows, Done) + Ending(due, turns, Done), Done)
      && Count(rows', Processing) == Count(rows, Processing)
      && Count(rows', Pending) == Count(rows, Pending) - Count(due, Pending) + Ending(due, turns, Pending)
      && Count(rows', Failed) == Count(rows, Failed) - Count(due, Failed) + Ending(due, turns, Failed)
  {
    hide Count, Compact, TurnsRows;
    TurnsCount(rows, due, turns, Done);
    TurnsCount(rows, due, turns, Processing);
    TurnsCount(rows, due, turns, Pending);
    TurnsCount(rows, due, turns, Failed);
    NoneTakenDone(due, Done);
    NoneTakenDone(due, Processing);
    NoneEndProcessing(due, turns);
  }

  lemma {:induction false} NoneEndProcessing(due: seq<Command>, turns: seq<Turn>)
    requires |due| == |turns|
    ensures Ending(due, turns, Processing) == 0
  {
    if turns != [] {
      NoneEndProcessing(due[1..], turns[1..]);
    }
  }
}
