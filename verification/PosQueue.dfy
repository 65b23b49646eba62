/**
 The stored form of the offline POS command queue and the pure steps on it
 (frontend/src/services/retail-pos-offline-queue.ts).

 Instants are milliseconds since the epoch; the source stores them as ISO 8601 text and
 reads them back with `Date.parse`, which is exact on the text `toISOString` prints.
 A missing instant (`null`) reads as 0, as `parseIsoMs` does.
 */
module PosQueue {
  import opened Basics
  import opened Digits
  import opened StableSort
  import opened Trimming

  const MAX_ATTEMPTS: nat := 8
  const DONE_KEEP: nat := 50
  const BACKOFF_CAP_MS: nat := 15 * 60 * 1000
  const ERROR_TEXT_LIMIT: nat := 255

  datatype Kind = CreateAndCheckout | VoidTicket | CompensationRetry

  datatype Status = Pending | Processing | Failed | Done

  /** A stored row.  The payload is JSON text; the queue only copies it. */
  datatype Command = Command(
    id: string,
    kind: Kind,
    status: Status,
    company: int,
    branch: int,
    dedupeKey: string,
    payload: string,
    attempts: nat,
    createdAt: nat,
    updatedAt: nat,
    processedAt: Option<nat>,
    nextRetryAt: Option<nat>,
    lastAttemptAt: Option<nat>,
    lastError: string)

  function ParseMs(t: Option<nat>): nat {
    if t.Some? then t.value else 0
  }

  // ---------------------------------------------------------------- backoff and due rows

  function NextBackoffMs(attempt: int): nat {
    var step := if attempt > 12 then 12 else if attempt < 1 then 1 else attempt;
    var base := Pow2(step) * 1000;
    if base < BACKOFF_CAP_MS then base else BACKOFF_CAP_MS
  }

  predicate IsDue(c: Command, nowMs: int) {
    c.status != Done && c.status != Processing &&
    (ParseMs(c.nextRetryAt) == 0 || ParseMs(c.nextRetryAt) <= nowMs)
  }

  function DueAt(nowMs: int): Command -> bool {
    c => IsDue(c, nowMs)
  }

  // ---------------------------------------------------------------- compaction on every write

  predicate IsDone(c: Command) { c.status == Done }

  predicate IsActive(c: Command) { c.status != Done }

  predicate CreatedFirst(a: Command, b: Command) { a.createdAt <= b.createdAt }

  predicate ProcessedLast(a: Command, b: Command) { ParseMs(b.processedAt) <= ParseMs(a.processedAt) }

  /** The DONE rows that a write keeps, newest `processed_at` first. */
  function KeptDone(rows: seq<Command>): seq<Command> {
    Take(Sort(ProcessedLast, Filter(IsDone, rows)), DONE_KEEP)
  }

  /** What `writeQueueState` stores. */
  function Compact(rows: seq<Command>): seq<Command> {
    Sort(CreatedFirst, Filter(IsActive, rows) + KeptDone(rows))
  }

  // ---------------------------------------------------------------- rewriting one row

  /** The three rewrites of a drain, with the clock readings each of them takes. */
  datatype Rewrite =
    | ToProcessing(updatedAt: nat)
    | ToDone(updatedAt: nat, processedAt: nat)
    | ToRetry(attempts: nat, updatedAt: nat, lastAttemptAt: nat, retryFrom: nat, error: string)
    | ToFailed(attempts: nat, updatedAt: nat, lastAttemptAt: nat, error: string)

  function Rewritten(c: Command, w: Rewrite): Command {
    match w
    case ToProcessing(u) => c.(status := Processing, updatedAt := u)
    case ToDone(u, p) =>
      c.(status := Done, updatedAt := u, processedAt := Some(p), nextRetryAt := None, lastError := "")
    case ToRetry(n, u, l, r, e) =>
      c.(status := Pending, attempts := n, updatedAt := u, lastAttemptAt := Some(l), lastError := e,
         nextRetryAt := Some(r + NextBackoffMs(n)))
    case ToFailed(n, u, l, e) =>
      c.(status := Failed, attempts := n, updatedAt := u, lastAttemptAt := Some(l), lastError := e,
         nextRetryAt := None)
  }

  function RewriteRow(rows: seq<Command>, id: string, w: Rewrite): seq<Command> {
    if rows == [] then []
    else [if rows[0].id == id then Rewritten(rows[0], w) else rows[0]] + RewriteRow(rows[1..], id, w)
  }

  // ---------------------------------------------------------------- executor errors

  /** What the executor may throw.  `status` 0 stands for a missing or falsy HTTP status. */
  datatype ExecutorError =
    | Thrown(text: string)
    | HttpLike(status: nat, apiMessage: string, message: string, code: Option<string>)

  function IsRetryable(e: ExecutorError): bool {
    match e
    case Thrown(_) => true
    case HttpLike(status, _, _, _) => status == 0 || status >= 500 || status == 429
  }

  function ErrorText(e: ExecutorError): string {
    match e
    case Thrown(text) => text
    case HttpLike(_, apiMessage, message, code) =>
      if apiMessage != "" then apiMessage
      else if message != "" then message
      else if code.Some? then code.value
      else "Unknown error"
  }

  /** `canRetry` of the drain's catch block. */
  predicate CanRetry(e: ExecutorError, nextAttempts: nat) {
    IsRetryable(e) && nextAttempts < MAX_ATTEMPTS
  }

  function FailureRewrite(e: ExecutorError, nextAttempts: nat, u: nat, l: nat, r: nat): Rewrite {
    var text := Take(ErrorText(e), ERROR_TEXT_LIMIT);
    if CanRetry(e, nextAttempts) then ToRetry(nextAttempts, u, l, r, text)
    else ToFailed(nextAttempts, u, l, text)
  }

  // ---------------------------------------------------------------- enqueue

  datatype Request = Request(kind: Kind, company: int, branch: int, dedupeKey: string, payload: string)

  /** `buildCreateCheckoutDedupeKey`. */
  function CreateCheckoutKey(company: int, branch: int, idempotencyKey: string): string {
    "create_checkout:" + IntegerText(company) + ":" + IntegerText(branch) + ":" + idempotencyKey
  }

  /** The text up to the first ':' is unambiguous when it is an integer. */
  lemma {:induction false} ColonFraming(a: int, b: int, x: string, y: string)
    requires IntegerText(a) + ":" + x == IntegerText(b) + ":" + y
    ensures a == b && x == y
  {
    IntegerTextSpec(a, b);
    IntegerTextSpec(b, a);
    var s, t := IntegerText(a), IntegerText(b);
    var w := s + ":" + x;
    assert w[|s|] == ':' && w == t + ":" + y && w[|t|] == ':';
    assert forall i :: 0 <= i < |s| ==> w[i] == s[i];
    assert forall i :: 0 <= i < |t| ==> w[i] == t[i];
    assert |s| == |t|;
    assert s == w[..|s|] && t == w[..|s|] && x == w[|s| + 1..] && y == w[|s| + 1..];
  }

  /** The key of a checkout determines its company, its branch and its idempotency key. */
  lemma {:induction false} CreateCheckoutKeyDetermines(c: int, b: int, k: string, c': int, b': int, k': string)
    requires CreateCheckoutKey(c, b, k) == CreateCheckoutKey(c', b', k')
    ensures c == c' && b == b' && k == k'
  {
    hide IntegerText;
    var x, x' := IntegerText(b) + ":" + k, IntegerText(b') + ":" + k';
    KeyShape(c, b, k);
    KeyShape(c', b', k');
    SamePrefix("create_checkout:", IntegerText(c) + ":" + x, IntegerText(c') + ":" + x');
    ColonFraming(c, c', x, x');
    ColonFraming(b, b', k, k');
  }

  lemma {:induction false} KeyShape(c: int, b: int, k: string)
    ensures CreateCheckoutKey(c, b, k) == "create_checkout:" + (IntegerText(c) + ":" + (IntegerText(b) + ":" + k))
  {
  }

  lemma {:induction false} SamePrefix(p: string, x: string, y: string)
    requires p + x == p + y
    ensures x == y
  {
    assert x == (p + x)[|p|..] && y == (p + y)[|p|..];
  }

  /** The row a request would create. */
  function NewCommand(q: Request, id: string, now: nat): Command {
    Command(id, q.kind, Pending, q.company, q.branch, Trim(IsJsBlank, q.dedupeKey), q.payload, 0, now, now, None, None, None, "")
  }

  predicate SameWork(a: Command, b: Command) {
    a.dedupeKey == b.dedupeKey && a.company == b.company && a.branch == b.branch
  }

  /** The first stored active row for the same work. */
  function FindActive(rows: seq<Command>, c: Command): Option<Command> {
    if rows == [] then None
    else if SameWork(rows[0], c) && IsActive(rows[0]) then Some(rows[0])
    else FindActive(rows[1..], c)
  }

  /** What `enqueuePosOfflineCommand` stores when the key is not blank: a duplicate is still a write. */
  function EnqueueRows(rows: seq<Command>, c: Command): seq<Command> {
    Compact(if FindActive(rows, c).Some? then rows else rows + [c])
  }

  lemma {:induction false} FindActiveSpec(rows: seq<Command>, c: Command)
    ensures FindActive(rows, c).Some? <==>
              exists r :: r in rows && r.dedupeKey == c.dedupeKey && r.company == c.company && r.branch == c.branch
                          && r.status != Done
    ensures FindActive(rows, c).Some? ==>
              var f := FindActive(rows, c).value;
              && f in rows && f.dedupeKey == c.dedupeKey && f.company == c.company && f.branch == c.branch
              && f.status != Done
  {
    if rows != [] {
      FindActiveSpec(rows[1..], c);
    }
  }

  // ---------------------------------------------------------------- the values of the source

  /** The delay doubles from 2 s and is cut at 15 minutes, which the tenth failure would reach. */
  lemma {:induction false} BackoffTable(attempt: int)
    ensures attempt <= 1 ==> NextBackoffMs(attempt) == 2_000
    ensures attempt == 2 ==> NextBackoffMs(attempt) == 4_000
    ensures attempt == 3 ==> NextBackoffMs(attempt) == 8_000
    ensures attempt == 4 ==> NextBackoffMs(attempt) == 16_000
    ensures attempt == 5 ==> NextBackoffMs(attempt) == 32_000
    ensures attempt == 6 ==> NextBackoffMs(attempt) == 64_000
    ensures attempt == 7 ==> NextBackoffMs(attempt) == 128_000
    ensures attempt == 8 ==> NextBackoffMs(attempt) == 256_000
    ensures attempt == 9 ==> NextBackoffMs(attempt) == 512_000
    ensures attempt >= 10 ==> NextBackoffMs(attempt) == 900_000
  {
    assert Pow2(4) == 16 && Pow2(8) == 256 && Pow2(12) == 4096;
    assert attempt >= 12 || attempt <= 1 || attempt in {2, 3, 4, 5, 6, 7, 8, 9, 10, 11};
  }

  /** PENDING and FAILED rows are due once their retry instant, if any, has come. */
  lemma {:induction false} DueExactly(c: Command, nowMs: int)
    ensures IsDue(c, nowMs) <==>
      (c.status == Pending || c.status == Failed) && (c.nextRetryAt.Some? && c.nextRetryAt.value > 0 ==> c.nextRetryAt.value <= nowMs)
  {
  }

  /** The failures after which a row waits for another attempt: anything but an HTTP status from 1
      to 499 other than 429, fewer than eight times. */
  predicate Retries(e: ExecutorError, attempts: nat) {
    (e.Thrown? || e.status == 0 || e.status == 429 || e.status >= 500) && attempts + 1 < 8
  }

  lemma {:induction false} RetriesExactly(e: ExecutorError, attempts: nat)
    ensures CanRetry(e, attempts + 1) <==> Retries(e, attempts)
    ensures IsRetryable(e) <==> e.Thrown? || e.status == 0 || e.status == 429 || e.status >= 500
  {
  }

  /** The message kept of an error: the first of the API's, the error's own and its code that there
      is, cut at 255 characters. */
  lemma {:induction false} KeptMessage(e: ExecutorError, attempts: nat, u: nat, l: nat, r: nat)
    ensures var text := if e.Thrown? then e.text
                        else if e.apiMessage != "" then e.apiMessage
                        else if e.message != "" then e.message
                        else if e.code.Some? then e.code.value
                        else "Unknown error";
      FailureRewrite(e, attempts, u, l, r).error == if |text| <= 255 then text else text[..255]
  {
  }
}
