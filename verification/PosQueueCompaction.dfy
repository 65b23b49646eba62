/** What compaction on every write (`writeQueueState`) keeps, drops and orders. */
module PosQueueCompaction {
  import opened Basics
  import opened StableSort
  import opened PosQueue

  lemma {:induction false} OrdersAreTotal()
    ensures TotalPreorder(CreatedFirst) && TotalPreorder(ProcessedLast)
  {
  }

  lemma {:induction false} SplitByDone(rows: seq<Command>)
    ensures multiset(rows) == multiset(Filter(IsActive, rows)) + multiset(Filter(IsDone, rows))
    ensures |rows| == |Filter(IsActive, rows)| + |Filter(IsDone, rows)|
  {
    if rows != [] {
      SplitByDone(rows[1..]);
      assert rows == [rows[0]] + rows[1..];
    }
  }

  lemma {:induction false} KeptDoneAreDone(rows: seq<Command>)
    ensures forall c :: c in KeptDone(rows) ==> c in rows && IsDone(c)
    ensures Sorted(ProcessedLast, KeptDone(rows))
    ensures Filter(IsDone, KeptDone(rows)) == KeptDone(rows)
    ensures Filter(IsActive, KeptDone(rows)) == []
    ensures |KeptDone(rows)| == if |Filter(IsDone, rows)| < DONE_KEEP then |Filter(IsDone, rows)| else DONE_KEEP
  {
    OrdersAreTotal();
    FilterIn(IsDone, rows);
    SortSorts(ProcessedLast, Filter(IsDone, rows));
    forall c | c in KeptDone(rows)
      ensures c in rows && IsDone(c)
    {
      assert c in Sort(ProcessedLast, Filter(IsDone, rows));
    }
    FilterAll(IsDone, KeptDone(rows));
    FilterNone(IsActive, KeptDone(rows));
  }

  /** The active and the DONE part of what a write stores. */
  lemma {:induction false} CompactParts(rows: seq<Command>)
    ensures Filter(IsActive, Compact(rows)) == Sort(CreatedFirst, Filter(IsActive, rows))
    ensures Filter(IsDone, Compact(rows)) == Sort(CreatedFirst, KeptDone(rows))
  {
    OrdersAreTotal();
    KeptDoneAreDone(rows);
    var active, done := Filter(IsActive, rows), KeptDone(rows);
    FilterIn(IsActive, rows);
    FilterAll(IsActive, active);
    FilterNone(IsDone, active);
    FilterConcat(IsActive, active, done);
    FilterConcat(IsDone, active, done);
    assert active + [] == active && [] + done == done;
    FilterSort(CreatedFirst, IsActive, active + done);
    FilterSort(CreatedFirst, IsDone, active + done);
  }

  /** No active row is lost, duplicated or changed. */
  lemma {:induction false} CompactKeepsActive(rows: seq<Command>)
    ensures multiset(Filter(IsActive, Compact(rows))) == multiset(Filter(IsActive, rows))
    ensures forall c :: c in Compact(rows) ==> c in rows
    ensures forall c :: c in rows && IsActive(c) ==> c in Compact(rows)
  {
    OrdersAreTotal();
    CompactParts(rows);
    KeptDoneAreDone(rows);
    FilterIn(IsActive, rows);
    SortSorts(CreatedFirst, Filter(IsActive, rows));
    SortSorts(CreatedFirst, Filter(IsActive, rows) + KeptDone(rows));
  }

  /** What `Take` leaves. */
  function Rest<T>(s: seq<T>, n: nat): seq<T> {
    if |s| <= n then [] else s[n..]
  }

  lemma {:induction false} TakeAndRest<T(!new)>(le: (T, T) -> bool, s: seq<T>, n: nat)
    requires Sorted(le, s)
    ensures Take(s, n) + Rest(s, n) == s
    ensures forall x, y :: x in Take(s, n) && y in Rest(s, n) ==> le(x, y)
  {
  }

  /** The DONE rows a write does not keep. */
  function DroppedDone(rows: seq<Command>): seq<Command> {
    Rest(Sort(ProcessedLast, Filter(IsDone, rows)), DONE_KEEP)
  }

  lemma {:induction false} KeptThenDropped(rows: seq<Command>)
    ensures KeptDone(rows) + DroppedDone(rows) == Sort(ProcessedLast, Filter(IsDone, rows))
    ensures forall k, d :: k in KeptDone(rows) && d in DroppedDone(rows) ==> ProcessedLast(k, d)
  {
    hide Sort, Filter, Sorted, TotalPreorder, Take, Rest;
    OrdersAreTotal();
    SortSorts(ProcessedLast, Filter(IsDone, rows));
    TakeAndRest(ProcessedLast, Sort(ProcessedLast, Filter(IsDone, rows)), DONE_KEEP);
  }

  /** Exactly min(50, #DONE) DONE rows stay; together with the dropped ones they are all of them,
      and no dropped one was processed later than a kept one. */
  lemma {:induction false} CompactKeepsNewestDone(rows: seq<Command>)
    ensures |Filter(IsDone, Compact(rows))| == if |Filter(IsDone, rows)| < 50 then |Filter(IsDone, rows)| else 50
    ensures multiset(Filter(IsDone, Compact(rows))) + multiset(DroppedDone(rows)) == multiset(Filter(IsDone, rows))
    ensures forall k, d :: k in Filter(IsDone, Compact(rows)) && d in DroppedDone(rows)
              ==> ParseMs(d.processedAt) <= ParseMs(k.processedAt)
  {
    OrdersAreTotal();
    CompactParts(rows);
    KeptDoneAreDone(rows);
    KeptThenDropped(rows);
    SortSorts(ProcessedLast, Filter(IsDone, rows));
    SortSorts(CreatedFirst, KeptDone(rows));
  }

  lemma {:induction false} CompactSorted(rows: seq<Command>)
    ensures forall i, j :: 0 <= i < j < |Compact(rows)| ==> Compact(rows)[i].createdAt <= Compact(rows)[j].createdAt
  {
    OrdersAreTotal();
    SortSorts(CreatedFirst, Filter(IsActive, rows) + KeptDone(rows));
  }

  /** A second write keeps the same DONE rows, merely re-sorted. */
  lemma {:induction false} KeptDoneTwice(rows: seq<Command>)
    ensures KeptDone(Compact(rows)) == Sort(ProcessedLast, Sort(CreatedFirst, KeptDone(rows)))
  {
    OrdersAreTotal();
    CompactParts(rows);
    KeptDoneAreDone(rows);
    var done := Sort(CreatedFirst, KeptDone(rows));
    SortSorts(CreatedFirst, KeptDone(rows));
    SortSorts(ProcessedLast, done);
    assert |Sort(ProcessedLast, done)| <= DONE_KEEP;
  }

  /** Among rows created at the same instant, re-sorting the kept DONE rows changes nothing. */
  lemma {:induction false} ResortKeepsTies(done: seq<Command>, c: Command)
    requires Sorted(ProcessedLast, done)
    ensures Filter(Tied(CreatedFirst, c), Sort(ProcessedLast, Sort(CreatedFirst, done)))
         == Filter(Tied(CreatedFirst, c), done)
  {
    OrdersAreTotal();
    var p := Tied(CreatedFirst, c);
    FilterSort(ProcessedLast, p, Sort(CreatedFirst, done));
    SortStable(CreatedFirst, c, done);
    FilterSorted(ProcessedLast, p, done);
    SortOfSorted(ProcessedLast, Filter(p, done));
  }

  /** Compacting twice stores the identical sequence, ties included. */
  lemma {:induction false} CompactIdempotent(rows: seq<Command>)
    ensures Compact(Compact(rows)) == Compact(rows)
  {
    OrdersAreTotal();
    var active, done := Filter(IsActive, rows), KeptDone(rows);
    var active', done' := Filter(IsActive, Compact(rows)), KeptDone(Compact(rows));
    CompactParts(rows);
    KeptDoneAreDone(rows);
    KeptDoneTwice(rows);
    SortSorts(CreatedFirst, active + done);
    SortSorts(CreatedFirst, active' + done');
    forall c
      ensures Filter(Tied(CreatedFirst, c), Compact(Compact(rows))) == Filter(Tied(CreatedFirst, c), Compact(rows))
    {
      var p := Tied(CreatedFirst, c);
      SortStable(CreatedFirst, c, active + done);
      SortStable(CreatedFirst, c, active' + done');
      SortStable(CreatedFirst, c, active);
      FilterConcat(p, active, done);
      FilterConcat(p, active', done');
      ResortKeepsTies(done, c);
    }
    SortedStableIsUnique(CreatedFirst, Compact(Compact(rows)), Compact(rows));
  }

  // ---------------------------------------------------------------- rows with equal instants

  function CreatedAt(t: nat): Command -> bool {
    (c: Command) => c.createdAt == t
  }

  function ProcessedAt(t: nat): Command -> bool {
    (c: Command) => (if c.processedAt.Some? then c.processedAt.value else 0) == t
  }

  /** Sorting by creation keeps the order of rows created at the same instant. */
  lemma {:induction false} CreatedStable(rows: seq<Command>, t: nat)
    ensures Filter(CreatedAt(t), Sort(CreatedFirst, rows)) == Filter(CreatedAt(t), rows)
  {
    OrdersAreTotal();
    if c :| c in rows && c.createdAt == t {
      SortStable(CreatedFirst, c, rows);
      FilterSame(Tied(CreatedFirst, c), CreatedAt(t), rows);
      FilterSame(Tied(CreatedFirst, c), CreatedAt(t), Sort(CreatedFirst, rows));
    } else {
      SortSorts(CreatedFirst, rows);
      FilterNone(CreatedAt(t), rows);
      FilterNone(CreatedAt(t), Sort(CreatedFirst, rows));
    }
  }

  lemma {:induction false} ProcessedStable(rows: seq<Command>, t: nat)
    ensures Filter(ProcessedAt(t), Sort(ProcessedLast, rows)) == Filter(ProcessedAt(t), rows)
  {
    OrdersAreTotal();
    if c :| c in rows && ProcessedAt(t)(c) {
      SortStable(ProcessedLast, c, rows);
      FilterSame(Tied(ProcessedLast, c), ProcessedAt(t), rows);
      FilterSame(Tied(ProcessedLast, c), ProcessedAt(t), Sort(ProcessedLast, rows));
    } else {
      SortSorts(ProcessedLast, rows);
      FilterNone(ProcessedAt(t), rows);
      FilterNone(ProcessedAt(t), Sort(ProcessedLast, rows));
    }
  }

  /** Among rows created at the same instant a write puts the active ones first, in the order in
      which they were, and then the DONE ones it keeps, newest first; among DONE rows processed at
      the same instant, those that came first stay. */
  lemma {:induction false} CompactTies(rows: seq<Command>, t: nat)
    ensures Filter(CreatedAt(t), Compact(rows))
         == Filter(CreatedAt(t), Filter((c: Command) => c.status != Done, rows)) + Filter(CreatedAt(t), KeptDone(rows))
    ensures Filter(ProcessedAt(t), KeptDone(rows)) + Filter(ProcessedAt(t), DroppedDone(rows))
         == Filter(ProcessedAt(t), Filter((c: Command) => c.status == Done, rows))
  {
    hide Sort, Filter;
    CreatedStable(Filter(IsActive, rows) + KeptDone(rows), t);
    FilterConcat(CreatedAt(t), Filter(IsActive, rows), KeptDone(rows));
    FilterSame(IsActive, (c: Command) => c.status != Done, rows);
    FilterSame(IsDone, (c: Command) => c.status == Done, rows);
    ProcessedStable(Filter(IsDone, rows), t);
    KeptThenDropped(rows);
    FilterConcat(ProcessedAt(t), KeptDone(rows), DroppedDone(rows));
  }
}
