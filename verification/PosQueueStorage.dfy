/**
 Reading the queue back: `normalizeCommand` and `readQueueState` on the parsed JSON of stored rows.
 A field is what `JSON.parse` makes of it.  Instants keep the form they have in PosQueue; `payload`
 is its JSON text.  How JavaScript reads a number from text is an arbitrary function.
 */
module PosQueueStorage {
  import opened Basics
  import opened Digits
  import opened StableSort
  import opened Trimming
  import opened PosQueue
  import opened PosQueueProtocol
  import opened PosQueueRuns
  import opened PosQueueHistory

  datatype Field = Missing | Null | Text(text: string) | Whole(number: int) | Flag(truth: bool) | Compound

  /** A parsed row; an instant is missing when it is null, absent or the empty text. */
  datatype Raw = Raw(
    id: Field, kind: Field, status: Field, company: Field, branch: Field, dedupeKey: Field, payload: Option<string>,
    attempts: Field, createdAt: Option<nat>, updatedAt: Option<nat>, processedAt: Option<nat>,
    nextRetryAt: Option<nat>, lastAttemptAt: Option<nat>, lastError: Field)

  type Numeral = string -> Option<int>

  // ---------------------------------------------------------------- one field

  function SafeString(f: Field, fallback: string): string {
    match f
    case Text(text) => text
    case Whole(number) => IntegerText(number)
    case Flag(truth) => if truth then "true" else "false"
    case _ => fallback
  }

  /** `Number(x)`; None is NaN. */
  function NumberOf(f: Field, numeral: Numeral): Option<int> {
    match f
    case Whole(number) => Some(number)
    case Text(text) => numeral(text)
    case Flag(truth) => Some(if truth then 1 else 0)
    case Null => Some(0)
    case _ => None
  }

  function StatusText(s: Status): string {
    match s
    case Pending => "PENDING"
    case Processing => "PROCESSING"
    case Failed => "FAILED"
    case Done => "DONE"
  }

  /** `sanitizeStatus`. */
  function StatusOf(text: string): Status {
    if text == "PROCESSING" then Processing
    else if text == "FAILED" then Failed
    else if text == "DONE" then Done
    else Pending
  }

  function KindText(k: Kind): string {
    match k
    case CreateAndCheckout => "CREATE_AND_CHECKOUT"
    case VoidTicket => "VOID_TICKET"
    case CompensationRetry => "COMPENSATION_RETRY"
  }

  /** `sanitizeKind`. */
  function KindOf(text: string): Kind {
    if text == "VOID_TICKET" then VoidTicket
    else if text == "COMPENSATION_RETRY" then CompensationRetry
    else CreateAndCheckout
  }

  lemma {:induction false} NamesReadBack(s: Status, k: Kind)
    ensures StatusOf(StatusText(s)) == s && KindOf(KindText(k)) == k
  {
    assert "PENDING"[1] == 'E' && "PROCESSING"[1] == 'R' && "FAILED"[1] == 'A' && "DONE"[1] == 'O';
    assert "CREATE_AND_CHECKOUT"[1] == 'R' && "VOID_TICKET"[0] == 'V' && "COMPENSATION_RETRY"[1] == 'O';
  }

  // ---------------------------------------------------------------- one row

  function AttemptsOf(f: Field, numeral: Numeral): nat {
    var n := NumberOf(f, numeral);
    if n.Some? && n.value > 0 then n.value else 0
  }

  /** `normalizeCommand`; None is a row that is dropped. */
  function Normalize(raw: Raw, numeral: Numeral): Option<Command> {
    var id := Trim(IsJsBlank, SafeString(raw.id, ""));
    var key := Trim(IsJsBlank, SafeString(raw.dedupeKey, ""));
    var company, branch := NumberOf(raw.company, numeral), NumberOf(raw.branch, numeral);
    if id == "" || key == "" || company == None || branch == None then None
    else Some(Command(
      id, KindOf(SafeString(raw.kind, "CREATE_AND_CHECKOUT")), StatusOf(SafeString(raw.status, "PENDING")),
      company.value, branch.value, key, if raw.payload.Some? then raw.payload.value else "{}",
      AttemptsOf(raw.attempts, numeral), ParseMs(raw.createdAt), ParseMs(raw.updatedAt),
      raw.processedAt, raw.nextRetryAt, raw.lastAttemptAt, SafeString(raw.lastError, "")))
  }

  /** What a stored row parses to. */
  function Stored(c: Command): Raw {
    Raw(Text(c.id), Text(KindText(c.kind)), Text(StatusText(c.status)), Whole(c.company), Whole(c.branch),
        Text(c.dedupeKey), Some(c.payload), Whole(c.attempts), Some(c.createdAt), Some(c.updatedAt),
        c.processedAt, c.nextRetryAt, c.lastAttemptAt, Text(c.lastError))
  }

  predicate IsName(s: string) {
    s != "" && Trim(IsJsBlank, s) == s
  }

  /** A row reads back as itself exactly when its id and its key are trimmed and not blank. */
  lemma {:induction false} ReadsBackExactly(c: Command, numeral: Numeral)
    ensures Normalize(Stored(c), numeral) == Some(c) <==> IsName(c.id) && IsName(c.dedupeKey)
  {
    hide Trim;
    NamesReadBack(c.status, c.kind);
  }

  /** Whatever was in the store, the rows that are read are read the same again. */
  lemma {:induction false} NormalizeIsIdempotent(raw: Raw, numeral: Numeral)
    requires Normalize(raw, numeral).Some?
    ensures Normalize(Stored(Normalize(raw, numeral).value), numeral) == Normalize(raw, numeral)
  {
    hide Trim;
    var c := Normalize(raw, numeral).value;
    TrimTwice(SafeString(raw.id, ""));
    TrimTwice(SafeString(raw.dedupeKey, ""));
    ReadsBackExactly(c, numeral);
  }

  lemma {:induction false} TrimTwice(s: string)
    ensures Trim(IsJsBlank, Trim(IsJsBlank, s)) == Trim(IsJsBlank, s)
  {
    hide Trim;
    TrimSpec(IsJsBlank, s);
    TrimSpec(IsJsBlank, Trim(IsJsBlank, s));
  }

  // ---------------------------------------------------------------- the whole store

  /** `readQueueState` on the rows of the stored array. */
  function ReadRows(raws: seq<Raw>, numeral: Numeral): seq<Command> {
    FilterMap(raw => Normalize(raw, numeral), raws)
  }

  function StoredRows(rows: seq<Command>): seq<Raw> {
    if rows == [] then [] else [Stored(rows[0])] + StoredRows(rows[1..])
  }

  lemma {:induction false} RowsReadBack(rows: seq<Command>, numeral: Numeral)
    requires forall c :: c in rows ==> IsName(c.id) && IsName(c.dedupeKey)
    ensures ReadRows(StoredRows(rows), numeral) == rows
  {
    hide Normalize, Stored;
    if rows != [] {
      RowsReadBack(rows[1..], numeral);
      ReadsBackExactly(rows[0], numeral);
      FilterMapCons((raw: Raw) => Normalize(raw, numeral), Stored(rows[0]), StoredRows(rows[1..]));
    }
  }

  /** Ids come from the random source, which gives neither blank nor untrimmed ones. */
  predicate NamedIds(es: seq<Event>) {
    forall e :: e in es && e.Enqueue? ==> IsName(e.id)
  }

  lemma {:induction false} UsedAreNames(w: World, es: seq<Event>)
    requires Legal(w, es) && NamedIds(es) && forall id :: id in w.used ==> IsName(id)
    ensures forall id :: id in Exec(w, es).used ==> IsName(id)
    decreases es
  {
    hide IsName, Compact, RewriteRow, EnqueueRows, DueRows;
    if es != [] {
      assert es[0] in es;
      assert Apply(w, es[0]).used <= w.used + (if es[0].Enqueue? then {es[0].id} else {});
      UsedAreNames(Apply(w, es[0]), es[1..]);
    }
  }

  /** In every run, reading the store back gives exactly the rows that were stored: the steps of
      the protocol lose nothing by working on what `normalizeCommand` returns. */
  lemma {:induction false} RunReadsBack(es: seq<Event>, numeral: Numeral)
    requires Legal(INIT, es) && NamedIds(es)
    ensures ReadRows(StoredRows(Exec(INIT, es).rows), numeral) == Exec(INIT, es).rows
  {
    hide Trim, ReadRows, StoredRows, Inv;
    var rows := Exec(INIT, es).rows;
    UsedAreNames(INIT, es);
    ReachableOk(es);
    forall c | c in rows
      ensures IsName(c.id) && IsName(c.dedupeKey)
    {
      StampsTellHistory(es, c);
      TrimSpec(IsJsBlank, c.dedupeKey);
      StoredIsUsed(Exec(INIT, es), c);
    }
    RowsReadBack(rows, numeral);
  }

  lemma {:induction false} StoredIsUsed(w: World, c: Command)
    requires Inv(w) && c in w.rows
    ensures c.id in w.used
  {
  }

  // ---------------------------------------------------------------- what the queue did not write

  /** The names that are stored. */
  lemma {:induction false} StoredNames()
    ensures StatusText(Pending) == "PENDING" && StatusText(Processing) == "PROCESSING"
    ensures StatusText(Failed) == "FAILED" && StatusText(Done) == "DONE"
    ensures KindText(CreateAndCheckout) == "CREATE_AND_CHECKOUT" && KindText(VoidTicket) == "VOID_TICKET"
    ensures KindText(CompensationRetry) == "COMPENSATION_RETRY"
  {
  }

  /** Unknown kinds and statuses read as new checkouts that are pending. */
  lemma {:induction false} UnknownNames(text: string)
    ensures text !in {"PROCESSING", "FAILED", "DONE"} ==> StatusOf(text) == Pending
    ensures text !in {"VOID_TICKET", "COMPENSATION_RETRY"} ==> KindOf(text) == CreateAndCheckout
  {
  }

  /** A row is dropped exactly when its id or its key is blank or its company or its branch is no
      number; attempts are never negative, and what is missing has its default. */
  lemma {:induction false} NormalizedFields(raw: Raw, numeral: Numeral)
    ensures Normalize(raw, numeral).Some? <==>
      && Trim(IsJsBlank, SafeString(raw.id, "")) != "" && Trim(IsJsBlank, SafeString(raw.dedupeKey, "")) != ""
      && NumberOf(raw.company, numeral).Some? && NumberOf(raw.branch, numeral).Some?
    ensures Normalize(raw, numeral).Some? ==>
      var c := Normalize(raw, numeral).value;
      && c.id == Trim(IsJsBlank, SafeString(raw.id, "")) && c.dedupeKey == Trim(IsJsBlank, SafeString(raw.dedupeKey, ""))
      && Some(c.company) == NumberOf(raw.company, numeral) && Some(c.branch) == NumberOf(raw.branch, numeral)
      && (raw.kind.Missing? ==> c.kind == CreateAndCheckout) && (raw.status.Missing? ==> c.status == Pending)
      && (raw.payload == None ==> c.payload == "{}") && (raw.payload.Some? ==> c.payload == raw.payload.value)
      && (raw.attempts.Whole? ==> c.attempts == if raw.attempts.number < 0 then 0 else raw.attempts.number)
      && (raw.attempts.Missing? || raw.attempts.Null? || raw.attempts.Compound? ==> c.attempts == 0)
      && (raw.createdAt == None ==> c.createdAt == 0) && (raw.updatedAt == None ==> c.updatedAt == 0)
      && (raw.createdAt.Some? ==> c.createdAt == raw.createdAt.value)
      && (raw.updatedAt.Some? ==> c.updatedAt == raw.updatedAt.value)
      && c.processedAt == raw.processedAt && c.nextRetryAt == raw.nextRetryAt && c.lastAttemptAt == raw.lastAttemptAt
      && (raw.lastError.Text? ==> c.lastError == raw.lastError.text) && (raw.lastError.Missing? ==> c.lastError == "")
  {
    hide Trim, IntegerText;
    assert "CREATE_AND_CHECKOUT"[0] == 'C' && "VOID_TICKET"[0] == 'V' && "COMPENSATION_RETRY"[1] == 'O';
    assert "PENDING"[1] == 'E';
  }

  /** How `safeString` and `Number` read the fields that are no text and no number. */
  lemma {:induction false} FieldsReadAs(numeral: Numeral, fallback: string, n: int, text: string)
    ensures SafeString(Flag(true), fallback) == "true" && SafeString(Flag(false), fallback) == "false"
    ensures SafeString(Whole(n), fallback) == IntegerText(n) && SafeString(Text(text), fallback) == text
    ensures SafeString(Missing, fallback) == fallback && SafeString(Null, fallback) == fallback
    ensures SafeString(Compound, fallback) == fallback
    ensures NumberOf(Flag(true), numeral) == Some(1) && NumberOf(Flag(false), numeral) == Some(0)
    ensures NumberOf(Null, numeral) == Some(0) && NumberOf(Missing, numeral) == None && NumberOf(Compound, numeral) == None
    ensures NumberOf(Whole(n), numeral) == Some(n) && NumberOf(Text(text), numeral) == numeral(text)
  {
  }
}
