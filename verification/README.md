# Proofs about the offline queue, the one-time passwords, canonical JSON, the token refresh and the quality gates

This project models the parts of the repository whose correctness is hard to see from reading
one function, and proves what they promise:

* the persistent command queue of the point of sale, as a class over the stored rows and as a
  state machine whose steps interleave (`PosQueue*.dfy`);
* base32 decoding on a 32-bit accumulator, and one-time passwords in JavaScript and Python
  (`Int32`, `Base32`, `Base32RoundTrip`, `Digits`, `Totp`);
* canonical JSON and the message a device signs (`JsonText`, `JsonPrinter`, `JsonCanonical`,
  `JsonOrder`, `JsonWhole`, `NumberText`, `SigningMessage`);
* the shared token refresh of the HTTP client and what it does to a logout (`AuthRefresh`,
  `AuthLogout`, `AuthSession`);
* checkout counters and percentiles (`CheckoutMetrics`), the Markdown fence scanner
  (`MarkdownFences`), the monthly close and its manifest (`MonthlyClose`), the typing-error
  baseline (`MypyBaseline`) and the lifecycle simulator's recorder (`Lifecycle`).

`StableSort`, `LexOrder`, `Trimming` and `Basics` hold what several of them share. Sorting is
modelled by its promise: `StableSort.SortedStableIsUnique` shows that order and stability leave
only one possible result, so nothing depends on the algorithm.

Code that changes state in the repository is a class or a method with loops here, proved against
functions that state what the new state is; the properties over whole runs are lemmas about those
functions. A run is a sequence of enabled events (`Legal`), and its end is `Exec`. The history that
only the proofs need (ledgers of executor calls, the run so far) is kept beside the modelled fields
and no step reads it.

Every lemma carries `{:induction false}`: each inductive step is written out and none is left to
Dafny's automatic induction.

## Results that the code does not meet everywhere

* **Attempts.** `POS_OFFLINE_MAX_ATTEMPTS` limits scheduled retries only. A FAILED row has no
  `next_retry_at`, so `isDue` makes it due again: for every n some run attempts a row n times
  (`AttemptsAreNotBounded`). The limit holds in every run whose drains take no row that has used
  it up (`AttemptsWithinLimit`), and a failure breaks it exactly when its row had
  (`FailureBreaksLimit`).
* **Canonical JSON.** `sortJson` assigns members to a fresh object, so a member named
  `__proto__` sets the prototype and is lost. Sorting changes nothing but the order of keys exactly
  when no member at any depth has that name (`SortKeepsWhole`); a text identifies its value exactly
  then (`TextIdentifies`). `ProtoMemberIsLost` is the smallest input.
* **Base32.** Decoding any clean text and encoding it again gives the text back exactly when the
  bits that fill no byte are fewer than five and all zero (`EncodeDecode`).
* **One-time passwords.** The JavaScript message has a zero upper half, so the two programs hash
  the same bytes exactly when the step counter is below 2^32 (`MessagesAgree`).
* **Signing message.** A timestamp is confused with another one whose text has no dot exactly
  when its own text has one (`RivalIffDotted`): magnitude 10^21 or more and two digits or more.
* **Baseline.** Writing and loading gives the set back exactly when every fingerprint is not
  blank, trimmed, free of line breaks and does not start with `#` (`RoundTrip`).
* **Logout.** A logout sticks, until a login or a request begins, exactly when at that moment no
  login and no refresh is in flight, no request can still start a refresh, and no request of
  `fetchMe`, `ensureSession` or `loadSession` can still succeed (`LogoutSticks`).
  `LogoutCanBeOverruled` gives runs in which it does not, without any refresh.
* **Stored rows.** A row reads back through `normalizeCommand` as itself exactly when its id and
  its key are trimmed and not blank (`ReadsBackExactly`), which every run keeps (`RunReadsBack`).

## Model

| member | source | states |
|---|---|---|
| PosQueueStore.Store.constructor | frontend/src/services/retail-pos-offline-queue.ts:150-163 | a missing stored value reads as the empty queue |
| PosQueueStore.Store.Enqueue | frontend/src/services/retail-pos-offline-queue.ts:244-293 | a blank key is refused and changes nothing; a request is a duplicate exactly when an active row has its trimmed key, company and branch, and then that row is returned and the store left alone; otherwise one row is added with every field as the request or the source's defaults give it, and no active row is lost |
| PosQueueStore.Store.Clear | frontend/src/services/retail-pos-offline-queue.ts:216-218 | the store is empty afterwards, also while a drain is awaiting |
| PosQueueStore.Store.Statistics | frontend/src/services/retail-pos-offline-queue.ts:220-242 | the counts per status and of due rows; the four statuses add up to the total |
| PosQueueStore.Store.Drain | frontend/src/services/retail-pos-offline-queue.ts:295-374 | the executor is given the oldest due rows in order, once each; succeeded counts the answers, still pending the failures that were thrown or have HTTP status 0, 429 or at least 500 on a row with fewer than seven attempts behind it, failed the other failures; the store ends as the interleaved run says |
| PosQueueStore.Store.Await | frontend/src/services/retail-pos-offline-queue.ts:325 | enqueues and clears that land during the await leave the drain where it was |
| PosQueueStore.Store.Land | frontend/src/services/retail-pos-offline-queue.ts:181-186 | an outside step is one atomic update of the store |
| PosQueue.FindActiveSpec | frontend/src/services/retail-pos-offline-queue.ts:258-264 | the search finds a row exactly when some active row has the same key, company and branch |
| PosQueue.CreateCheckoutKeyDetermines | frontend/src/services/retail-pos-offline-queue.ts:376-382 | the dedupe key of a checkout determines company, branch and idempotency key, even one with colons |
| PosQueue.ColonFraming | frontend/src/services/retail-pos-offline-queue.ts:381 | an integer before a colon can be read back from the key |
| PosQueue.KeyShape | frontend/src/services/retail-pos-offline-queue.ts:381 | the key is `create_checkout`, company, branch and idempotency key with a colon after each of the first three |
| PosQueue.BackoffTable | frontend/src/services/retail-pos-offline-queue.ts:87-91 | the delay for every number of attempts: 2 s up to the first, doubled each time, 15 minutes from the tenth on |
| PosQueue.DueExactly | frontend/src/services/retail-pos-offline-queue.ts:205-210 | a row is due exactly when it is PENDING or FAILED and its retry instant, if any, has come |
| PosQueue.RetriesExactly | frontend/src/services/retail-pos-offline-queue.ts:188-203 | an error is retryable exactly when it was thrown or its HTTP status is 0, 429 or at least 500 |
| PosQueue.KeptMessage | frontend/src/services/retail-pos-offline-queue.ts:196-202 | the first message there is of the API's, the error's own and its code, cut at 255 characters |
| Trimming.TrimIsMiddle | frontend/src/services/retail-pos-offline-queue.ts:251 | trimming removes exactly the blanks at the two ends |
| Trimming.JsBlanksAre | frontend/src/services/retail-pos-offline-queue.ts:251 | the blanks of JavaScript, by code point |
| PosQueueCompaction.CompactKeepsActive | frontend/src/services/retail-pos-offline-queue.ts:165-179 | a write loses, duplicates and changes no row that is not DONE |
| PosQueueCompaction.CompactKeepsNewestDone | frontend/src/services/retail-pos-offline-queue.ts:165-179 | exactly min(50, number of DONE) DONE rows stay, and no dropped one was processed later than a kept one |
| PosQueueCompaction.KeptThenDropped | frontend/src/services/retail-pos-offline-queue.ts:166-169 | kept and dropped DONE rows together are all of them, newest first |
| PosQueueCompaction.CompactSorted | frontend/src/services/retail-pos-offline-queue.ts:171 | the stored list is sorted by creation time |
| PosQueueCompaction.CompactTies | frontend/src/services/retail-pos-offline-queue.ts:165-171 | among rows created at the same instant the active ones come first, as they were, then the DONE ones; among DONE rows processed at the same instant the first ones stay |
| PosQueueCompaction.CompactIdempotent | frontend/src/services/retail-pos-offline-queue.ts:165-179 | writing twice stores the identical list, ties included |
| PosQueueCompaction.CompactParts | frontend/src/services/retail-pos-offline-queue.ts:166-171 | the active and the DONE part of what a write stores |
| StableSort.SortSorts | frontend/src/services/retail-pos-offline-queue.ts:168-171 | the result of a sort is ordered and a permutation of its input |
| StableSort.SortStable | frontend/src/services/retail-pos-offline-queue.ts:168-171 | tied elements keep their relative places |
| StableSort.SortedStableIsUnique | frontend/src/services/retail-pos-offline-queue.ts:168-171 | order and stability determine the result of a sort |
| StableSort.SortIgnoresOrder | backend/src/apps/kernels/accounting/certification_phase12.py:388-397 | without ties the order of the input does not matter |
| LexOrder.StringLeMeans | qa/mypy_baseline_guard.py:62 | texts are ordered by ascending code points at the first difference |
| LexOrder.LexLeMeans | frontend/src/services/sync-device-crypto.ts:27 | a prefix comes first, otherwise the first difference decides |
| PosQueueProtocol.StepKeeps | frontend/src/services/retail-pos-offline-queue.ts:181-374 | every atomic step, in any interleaving with one drainer, keeps the queue's invariant |
| PosQueueProtocol.RunKeeps | frontend/src/services/retail-pos-offline-queue.ts:181-374 | so does every run |
| PosQueueProtocol.DueRowsSpec | frontend/src/services/retail-pos-offline-queue.ts:298-302 | a drain takes stored rows that are due, none twice |
| PosQueueProtocol.DrainDefaults | frontend/src/services/retail-pos-offline-queue.ts:296-297 | the clock and 20 rows unless something other than 0 is given; at least one row |
| PosQueueProtocol.WhenEnabled | frontend/src/services/retail-pos-offline-queue.ts:295-366 | a drain starts when none runs, calls the executor for its next row, takes one answer for each call and ends after the last row |
| PosQueueProtocol.AfterBegin | frontend/src/services/retail-pos-offline-queue.ts:311-322 | the current row becomes PROCESSING with a new stamp and nothing else of it changes |
| PosQueueProtocol.AfterSuccess | frontend/src/services/retail-pos-offline-queue.ts:327-341 | it becomes DONE with both stamps, no retry instant and no error; attempts and request stay |
| PosQueueProtocol.AfterFailure | frontend/src/services/retail-pos-offline-queue.ts:342-364 | it gets one more attempt, its stamps and the message, and waits 2^n seconds as PENDING exactly when the error is retryable and attempts remain; otherwise it is FAILED with no retry instant |
| PosQueueProtocol.BackoffIsExact | frontend/src/services/retail-pos-offline-queue.ts:87-91 | the delay after the n-th failure is 2^n seconds; the 15 minute cap never binds |
| PosQueueRuns.AtMostOneActive | frontend/src/services/retail-pos-offline-queue.ts:257-269 | in every run no two stored rows that are not DONE have the same key, company and branch |
| PosQueueRuns.SucceedsAtMostOnce | frontend/src/services/retail-pos-offline-queue.ts:309-365 | in every run a command succeeds at most once, and the executor was called once per recorded attempt, plus once if the row is DONE or PROCESSING |
| PosQueueRuns.StoredRowBounds | frontend/src/services/retail-pos-offline-queue.ts:342-364 | PENDING implies at most 7 attempts, no retry is further away than 128 s, and the store is what a further write would store |
| PosQueueRuns.DoneIsFinal | frontend/src/services/retail-pos-offline-queue.ts:309-365 | a DONE row never changes, never comes back after being dropped and is never executed again |
| PosQueueRuns.AttemptsAreNotBounded | frontend/src/services/retail-pos-offline-queue.ts:205-210 | for every n some run attempts one row n times, because FAILED rows are due |
| PosQueueRuns.AttemptsWithinLimit | frontend/src/services/retail-pos-offline-queue.ts:342-345 | a run whose drains take no exhausted row stays within 8 attempts |
| PosQueueRuns.FailureBreaksLimit | frontend/src/services/retail-pos-offline-queue.ts:342-355 | a failure goes beyond 8 attempts exactly when the row taken had 8 |
| PosQueueHistory.StampsTellHistory | frontend/src/services/retail-pos-offline-queue.ts:270-362 | in every run a row's instants are in order, it has an attempt time exactly when attempted, a processing time exactly when DONE, and an error text of at most 255 characters |
| PosQueueHistory.CommandsKeepTheirRequest | frontend/src/services/retail-pos-offline-queue.ts:309-365 | id, kind, company, branch, key, payload and creation time of a command never change; its attempts never decrease |
| PosQueueHistory.NothingIsLost | frontend/src/services/retail-pos-offline-queue.ts:165-186 | from any point of a run on, as long as the queue is not cleared, a command that was active then or was accepted since is stored and active exactly until it has succeeded |
| PosQueueStorage.ReadsBackExactly | frontend/src/services/retail-pos-offline-queue.ts:122-148 | a stored row is normalized to itself exactly when its id and key are trimmed and not blank |
| PosQueueStorage.NormalizeIsIdempotent | frontend/src/services/retail-pos-offline-queue.ts:122-148 | whatever a stored row was, what is read from it is read the same again |
| PosQueueStorage.NormalizedFields | frontend/src/services/retail-pos-offline-queue.ts:122-148 | a row is dropped exactly when its id or key is blank or company or branch is no number; each field of any other, with its default |
| PosQueueStorage.FieldsReadAs | frontend/src/services/retail-pos-offline-queue.ts:99-103 | how text and numbers are read from fields of every kind |
| PosQueueStorage.StoredNames | frontend/src/services/retail-pos-offline-queue.ts:9-10 | the names of statuses and kinds in the store |
| PosQueueStorage.UnknownNames | frontend/src/services/retail-pos-offline-queue.ts:112-120 | unknown statuses read as PENDING and unknown kinds as a new checkout |
| PosQueueStorage.RunReadsBack | frontend/src/services/retail-pos-offline-queue.ts:150-163 | in every run, reading the store gives exactly the rows that were written |
| PosQueueTiming.BackoffSpacesFailures | frontend/src/services/retail-pos-offline-queue.ts:342-360 | the k-th failure, k up to 8, comes at least (2^k - 2) seconds after the first when the earlier ones were retryable and drains use the real time |
| PosQueueTiming.ExhaustionTakesTime | frontend/src/services/retail-pos-offline-queue.ts:342-360 | a row FAILED by exhaustion had 8 failures spread over at least 254 seconds |
| PosQueueTiming.StepTimed | frontend/src/services/retail-pos-offline-queue.ts:205-210 | no row is taken before its retry instant |
| PosQueueDrain.DueRowsAreOldest | frontend/src/services/retail-pos-offline-queue.ts:298-302 | a drain takes min(limit, due) rows in order of creation; none left behind is older than one taken |
| PosQueueDrain.DueRowsTies | frontend/src/services/retail-pos-offline-queue.ts:298-302 | rows created at the same instant are taken in the order in which they are stored |
| PosQueueDrain.CompactCount | frontend/src/services/retail-pos-offline-queue.ts:165-179 | a write caps the DONE count at 50 and changes no other count |
| PosQueueDrain.QuietDrainStatistics | frontend/src/services/retail-pos-offline-queue.ts:220-374 | a drain without interleaved steps: DONE grows by the successes up to 50, PROCESSING is unchanged, PENDING and FAILED change by exactly the rows taken and the answers |
| Base32.Base32ToBytes | simulacion/auth_load_simulation.js:80-104 | the loop returns the whole bytes of the concatenated 5-bit groups, although its accumulator wraps at 2^32 |
| Base32.ShiftIn | simulacion/auth_load_simulation.js:95-96 | shifting a group in keeps the pending bits and appends the group's five, whatever the upper bits are |
| Base32.ShiftOut | simulacion/auth_load_simulation.js:97-100 | the byte taken out is the oldest eight pending bits |
| Int32.LastBit | simulacion/auth_load_simulation.js:95-98 | `|` and `&`, bit by bit |
| Int32.ShiftsAre | simulacion/auth_load_simulation.js:95-98 | `<<` multiplies and wraps at 2^32, `>>>` divides |
| Base32RoundTrip.DecodeEncode | simulacion/auth_load_simulation.js:80-104 | decoding the RFC 4648 encoding of any bytes, padded or not and in either case, returns the bytes |
| Base32RoundTrip.DecodeIsPrefix | simulacion/auth_load_simulation.js:91-101 | n symbols give floor(5n/8) bytes, a prefix of the concatenated groups |
| Base32RoundTrip.EncodeDecode | simulacion/auth_load_simulation.js:91-101 | encoding a decoded text gives it back exactly when the leftover bits are fewer than five and zero |
| Base32RoundTrip.PaddingLength | simulacion/auth_load_simulation.js:81-84 | the padding that the cleaning strips: 0, 6, 4, 3 or 1 signs by the length modulo 5 |
| Base32RoundTrip.CleanText | simulacion/auth_load_simulation.js:81-84 | cleaning removes padding and lower case and nothing else from an encoding |
| Base32RoundTrip.SeparatorsDropped | simulacion/auth_load_simulation.js:81-84 | whatever is no letter and no digit from 2 to 7 is dropped anywhere in a secret; letters count in either case |
| Base32RoundTrip.AlphabetIs | simulacion/auth_load_simulation.js:85 | the alphabet is A to Z and 2 to 7 |
| Base32RoundTrip.OneByteVector | simulacion/auth_load_simulation.js:80-104 | the test vector of section 10 of RFC 4648 for one byte |
| Totp.HexToBytes | simulacion/auth_load_simulation.js:110-116 | on any text, what `parseInt` makes of every two characters, a single last one and NaN included |
| Totp.DigestReadsBack | simulacion/auth_load_simulation.js:128-129 | on the text of a digest, that is the digest |
| Digits.ParseHexPair | simulacion/auth_load_simulation.js:113 | two hexadecimal digits of either case parse to their value |
| Digits.ParseDigits | simulacion/auth_load_simulation.js:113 | the digits up to the first other character count |
| Digits.ParseBlank | simulacion/auth_load_simulation.js:113 | leading blanks do not matter |
| Digits.ParseSign | simulacion/auth_load_simulation.js:113 | one sign may come first |
| Digits.ParsePrefix | simulacion/auth_load_simulation.js:113 | 0x is skipped; without a digit the result is NaN |
| Digits.HexDigitValues | simulacion/auth_load_simulation.js:113 | the value of each digit |
| Digits.HexAt | simulacion/auth_load_simulation.js:110-116 | two hexadecimal digits of a digest spell its byte |
| Totp.SetUint32 | simulacion/auth_load_simulation.js:124-126 | four bytes, most significant first, modulo 2^32; the rest of the buffer is unchanged |
| Totp.TotpJs | simulacion/auth_load_simulation.js:118-139 | the code is the dynamic truncation of section 5.3 of RFC 4226 in decimal digits; below counter 2^32 it is the RFC 6238 code and what the Python program computes |
| Totp.TruncationIsDynamic | simulacion/auth_load_simulation.js:130-135 | the index stays inside the digest and the masked, shifted and or-ed bytes are the 31-bit number of the RFC |
| Totp.CountersAgree | simulacion/auth_load_simulation.js:122 | the JavaScript and the Python step counter are equal at every instant |
| Totp.MessagesAgree | qa/product_lifecycle_full_cycle.py:230-231 | both programs hash the same eight bytes exactly when the counter is below 2^32 |
| Totp.TruncationExample | simulacion/auth_load_simulation.js:130-137 | the example of section 5.4 of RFC 4226 |
| Totp.CounterExample | simulacion/auth_load_simulation.js:122 | rows of appendix B of RFC 6238 |
| Totp.MessageExample | simulacion/auth_load_simulation.js:123-126 | step 1 is seven zero bytes and a one |
| Totp.CodePyIs | qa/product_lifecycle_full_cycle.py:226-241 | the Python program raises from step 2^64 on and otherwise computes the code of section 5.3 of RFC 4226 |
| Digits.CodeTextSpec | qa/product_lifecycle_full_cycle.py:240-241 | the text has exactly the asked number of decimal digits and the value code mod 10^digits |
| Digits.IntegerTextIs | frontend/src/services/retail-pos-offline-queue.ts:381 | an integer is printed in decimal digits, after a minus sign if it is negative |
| JsonPrinter.EscapedUnique | frontend/src/services/sync-device-crypto.ts:35-37 | string literals are prefix-free: the closing quote cannot be mistaken |
| JsonPrinter.TextUnique | frontend/src/services/sync-device-crypto.ts:35-37 | the text of a value followed by anything determines the value and the rest |
| JsonPrinter.StringifyDetermines | frontend/src/services/sync-device-crypto.ts:35-37 | values with the same text mean the same |
| JsonOrder.KeysInOrder | frontend/src/services/sync-device-crypto.ts:26-30 | in a sorted object array indices come first in increasing numeric value, then all other keys in ascending order of their code units |
| JsonOrder.IndexExactly | frontend/src/services/sync-device-crypto.ts:26-30 | a key is an array index exactly when it is a number below 2^32 - 1 in its own decimal digits |
| JsonPrinter.ArrayText | frontend/src/services/sync-device-crypto.ts:35-37 | an array is printed as its elements between brackets with commas between them |
| JsonPrinter.ObjectText | frontend/src/services/sync-device-crypto.ts:35-37 | an object as key, colon and value of its members that are not `undefined`, between braces with commas between them |
| JsonPrinter.LiteralTexts | frontend/src/services/sync-device-crypto.ts:35-37 | the literals, numbers and quoted strings; `undefined` has no text of its own |
| JsonPrinter.LetterEscapes | frontend/src/services/sync-device-crypto.ts:35-37 | the seven escapes that have a letter |
| JsonPrinter.OtherEscapes | frontend/src/services/sync-device-crypto.ts:35-37 | other control units and lone surrogates have four lower-case hexadecimal digits, all else stands for itself |
| JsonPrinter.SurrogatesEscaped | frontend/src/services/sync-device-crypto.ts:35-37 | surrogate pairs stay as they are |
| JsonCanonical.CanonicalText | frontend/src/services/sync-device-crypto.ts:23-37 | two values have the same canonical text exactly when they carry the same value: equal up to the order of keys at every depth and up to members that are `undefined` or named `__proto__` |
| JsonCanonical.SortPreservesMeaning | frontend/src/services/sync-device-crypto.ts:23-33 | sorting keeps the carried value, that is all but members named `__proto__` |
| JsonWhole.SortKeepsWhole | frontend/src/services/sync-device-crypto.ts:23-33 | sorting changes nothing but the order of keys exactly when no member at any depth is named `__proto__` |
| JsonWhole.CanonicalTextIsWhole | frontend/src/services/sync-device-crypto.ts:23-37 | among values without such a member, equal texts are values equal up to the order of keys at every depth, and conversely |
| JsonWhole.TextIdentifies | frontend/src/services/sync-device-crypto.ts:23-37 | a text identifies its value among values without such a member exactly when the value has none |
| JsonWhole.CarriesWhole | frontend/src/services/sync-device-crypto.ts:26-30 | nothing is lost exactly when there is no such member |
| JsonCanonical.SortJsonIdempotent | frontend/src/services/sync-device-crypto.ts:23-33 | sorting twice is sorting once, index-like keys included |
| JsonCanonical.SortKeepsWellFormed | frontend/src/services/sync-device-crypto.ts:23-33 | keys stay distinct at every depth |
| JsonCanonical.SameMeaningSameText | frontend/src/services/sync-device-crypto.ts:23-37 | values that mean the same print the same canonical text |
| JsonCanonical.ArrangedMembers | frontend/src/services/sync-device-crypto.ts:26-30 | an object keeps exactly its members, except one named `__proto__` |
| JsonCanonical.ProtoMemberIsLost | frontend/src/services/sync-device-crypto.ts:26-30 | a member named `__proto__` is lost, so that value shares its text with the empty object |
| SigningMessage.MessageDetermines | frontend/src/services/sync-device-crypto.ts:46-53 | for any numbers as timestamps, among those whose texts both have no dot or both have one, the message determines the whole second, the nonce and the body digest, and nothing else |
| SigningMessage.SigningTextIs | frontend/src/services/sync-device-crypto.ts:46-53 | the text is the truncated timestamp, a dot, the nonce, a dot and the 64 lower-case hexadecimal digits of the digest |
| NumberText.TruncIs | frontend/src/services/sync-device-crypto.ts:52 | truncation drops what is behind the point and keeps the sign |
| NumberText.WholeTexts | frontend/src/services/sync-device-crypto.ts:52 | up to 21 digits are written out, more have an exponent; the special values by name |
| SigningMessage.RivalIffDotted | frontend/src/services/sync-device-crypto.ts:52 | a timestamp shares a message with a different one without a dot exactly when its own text has a dot |
| NumberText.WholeTextInjective | frontend/src/services/sync-device-crypto.ts:52 | different truncated timestamps print different texts, with exponents, infinities and NaN |
| SigningMessage.FramingUnique | frontend/src/services/sync-device-crypto.ts:52 | a dotless timestamp and a hash of fixed length frame any nonce, dots included |
| SigningMessage.DotIsAmbiguous | frontend/src/services/sync-device-crypto.ts:52 | a timestamp text with a dot has a different reading of the same message, for every nonce and hash |
| AuthRefresh.StepKeeps | frontend/src/stores/auth.store.ts:126-168 | every settled promise, logout and clear keeps the lock's invariant |
| AuthRefresh.RunKeeps | frontend/src/boot/axios.ts:164-205 | so does every run |
| AuthRefresh.OneFlightAtATime | frontend/src/stores/auth.store.ts:126-141 | at most one refresh POST is in flight, and the lock is set exactly while it is |
| AuthRefresh.OutcomeIsFinal | frontend/src/stores/auth.store.ts:130-140 | a flight settles once, so all its waiters read the same outcome |
| AuthRefresh.SentAtMostTwice | frontend/src/boot/axios.ts:176-196 | a request is sent at most twice, a second time only after its flight succeeded; one that joined a failed flight is not resent; exempt paths never wait |
| AuthRefresh.RefreshesAtMostRequests | frontend/src/boot/axios.ts:181-185 | there are no more refresh POSTs than requests |
| AuthRefresh.RefreshPathStartsNone | frontend/src/boot/axios.ts:83-182 | in every run a request to the refresh path is sent at most once, never waits for a refresh and never starts one |
| AuthRefresh.Prefixes | frontend/src/boot/axios.ts:70-110 | the six and the ten prefixes that are exempt |
| AuthRefresh.AnyPathMayBeIssued | frontend/src/boot/axios.ts:127-162 | any path may be requested; the two paths of the stores with their follow-up |
| AuthRefresh.RunsEnd | frontend/src/boot/axios.ts:164-205 | R requests and L logins cause at most 6R + L settled promises and continuations of the stores, so every run ends |
| AuthRefresh.NeverStuck | frontend/src/boot/axios.ts:164-205 | while a request or the code after it is unfinished, something can still settle or continue |
| AuthLogout.AuthenticatedHasACause | frontend/src/stores/auth.store.ts:40-135 | the session becomes authenticated by a login or second factor that is accepted, by a refresh that succeeds, or by the rest of `fetchMe`, `ensureSession` or `loadSession` after its request succeeded, and in no other way |
| AuthLogout.LogoutSticks | frontend/src/stores/auth.store.ts:40-168 | after a logout at any point of any run, the session stays signed out until a login or a request begins exactly when nothing under way can revive it: no login, no refresh, no request that can start one, no pending `fetchMe`, `ensureSession` or `loadSession` |
| AuthLogout.Revive | frontend/src/stores/auth.store.ts:91-135 | what is under way can indeed settle so that the session is authenticated again |
| AuthLogout.StepStaysOut | frontend/src/stores/auth.store.ts:91-168 | otherwise every step keeps it signed out |
| AuthLogout.LogoutCanBeOverruled | frontend/src/stores/session-bootstrap.store.ts:84-116 | runs with no refresh at all in which `fetchMe`, or the `loadSession` of a navigation, undoes a logout |
| AuthSession.Client.constructor | frontend/src/stores/auth.store.ts:12-31 | no refresh is in flight at the start |
| AuthSession.Client.Refresh | frontend/src/stores/auth.store.ts:126-141 | joins the flight under way or starts the only one |
| AuthSession.Client.SettleRefresh | frontend/src/stores/auth.store.ts:130-138 | sets the status on success and releases the lock either way |
| AuthSession.Client.HardClearLocal | frontend/src/stores/auth.store.ts:154-168 | clears status and context and leaves the lock alone |
| AuthSession.Client.Send | frontend/src/boot/axios.ts:127-162 | the first request signs the session out; the flag is set exactly on exempt paths or if it was set; without its context a request is rejected and its sends are unchanged, otherwise it is sent once more; nothing else of it changes |
| AuthSession.Client.IssueRequest | frontend/src/boot/axios.ts:127-162 | one request is added: sent once, or rejected unsent without its context; the others and the lock are unchanged |
| AuthSession.Client.OnResponse | frontend/src/boot/axios.ts:164-204 | a request waits exactly after a first 401 on a path that is not exempt, and then for the flight that holds the lock; any other answer leaves status and lock alone; no other request changes |
| AuthSession.Client.AfterRefresh | frontend/src/boot/axios.ts:184-195 | after a success the request is sent a second time, or rejected if its context is gone; after a failure the session is cleared and the request rejected unsent; the lock is unchanged |
| AuthSession.Client.AfterMe | frontend/src/stores/auth.store.ts:91-107 | the rest of `fetchMe`: authenticated after a success, signed out after a 401 or 403, unchanged after another error |
| AuthSession.Client.AfterEnsure | frontend/src/stores/auth.store.ts:56-64 | the rest of `ensureSession`: authenticated after a success, anonymous after any error |
| AuthSession.Client.AfterSession | frontend/src/stores/session-bootstrap.store.ts:106-134 | the rest of `loadSession`: authenticated after a success; denied with 401 or 403, the router guard signs out; unchanged otherwise |
| AuthSession.Client.InitFromStorage | frontend/src/stores/auth.store.ts:50-54 | a session starts signed out once, and is left alone afterwards |
| AuthSession.Client.SignIn | frontend/src/stores/auth.store.ts:66-84 | a login or second factor is under way |
| AuthSession.Client.AfterSignIn | frontend/src/stores/auth.store.ts:66-89 | its answer sets the status, whatever happened to the session meanwhile; a refusal leaves it |
| CheckoutMetrics.Metrics.constructor | backend/src/config/metrics.py:22-26 | counters and window start empty |
| CheckoutMetrics.Metrics.RecordPosCheckout | backend/src/config/metrics.py:103-119 | after any sequence of checkouts the counters are those of the sequence and the window is its last min(n, 5000) durations in order; each call counts one checkout, one error by its reason if it has one, and drops the oldest of 5000 durations |
| CheckoutMetrics.WindowAppend | backend/src/config/metrics.py:26 | a bounded deque holds the last elements appended |
| CheckoutMetrics.Metrics.LatencyP95 | backend/src/config/metrics.py:153 | the 95th percentile of that window |
| CheckoutMetrics.ClampNeverNeeded | backend/src/config/metrics.py:77-78 | for 0 < q < 1 the rounded index is already in range |
| CheckoutMetrics.RoundIsNearest | backend/src/config/metrics.py:77 | rounding gives the nearest integer, halfway the even one |
| CheckoutMetrics.RankIsNearest | backend/src/config/metrics.py:72-78 | the rank of the result is the integer nearest to (n - 1) * q, halfway the even one; the ends at q <= 0 and q >= 1 |
| CheckoutMetrics.DurationIs | backend/src/config/metrics.py:107-110 | whole milliseconds, cut off, never negative |
| CheckoutMetrics.PercentileRank | backend/src/config/metrics.py:69-79 | the result is a sample with at least r + 1 samples at most it and n - r at least it |
| CheckoutMetrics.PercentileIgnoresOrder | backend/src/config/metrics.py:69-79 | the order of the samples does not matter |
| CheckoutMetrics.PercentileMonotone | backend/src/config/metrics.py:69-79 | a larger q never gives a smaller result, under half-to-even rounding and at both ends |
| MarkdownFences.ScanMarkdown | scripts/inventario_bloques_codigo.py:42-106 | ceil(k/2) blocks for k fences, each with exactly the lines between its fences, only the last possibly incomplete; fence, content and outside lines add up to all lines |
| MarkdownFences.BlocksAreDisjoint | scripts/inventario_bloques_codigo.py:58-106 | blocks are disjoint, in the order of the file, with no fence inside |
| MarkdownFences.FencesSpec | scripts/inventario_bloques_codigo.py:58-60 | the fence lines in increasing order |
| MarkdownFences.FenceExactly | scripts/inventario_bloques_codigo.py:60 | a fence begins with three back quotes after blanks |
| MarkdownFences.LanguageExactly | scripts/inventario_bloques_codigo.py:66-67 | the language is what stands behind them, trimmed, or plain |
| MarkdownFences.JoinIs | scripts/inventario_bloques_codigo.py:79 | the content is the lines one after the other |
| Trimming.PyBlanksAre | scripts/inventario_bloques_codigo.py:60 | the blanks of Python, by code point |
| MarkdownFences.GroupBy | scripts/inventario_bloques_codigo.py:123-136 | every group holds exactly the blocks with its key, in order, and no group is empty |
| MarkdownFences.GroupsAddUp | scripts/inventario_bloques_codigo.py:138-160 | the groups by file or by language add up to the block and the line totals |
| MonthlyClose.ScopeIsASet | backend/src/apps/kernels/accounting/certification_phase12.py:335-342 | the scope hash input is the same exactly for the same set of companies |
| MonthlyClose.RunMonthlyClose | backend/src/apps/kernels/accounting/certification_phase12.py:444-724 | the cycle passes exactly when every subsystem meets its condition, a revaluation that raised included; the answers, or the defaults for those that raised, are reported; one row per answering company with all its fields, ascending; under BLOCK a passing cycle has LOW risk |
| MonthlyClose.ReportOfAnswers | backend/src/apps/kernels/accounting/certification_phase12.py:479-534 | risk HIGH, MEDIUM or LOW; the one warning exactly for a blocked revaluation; FAILED with one issue for a revaluation or consolidation that raised |
| MonthlyClose.CheckList | backend/src/apps/kernels/accounting/certification_phase12.py:591-629 | name and condition of the first six checks |
| MonthlyClose.CheckListRest | backend/src/apps/kernels/accounting/certification_phase12.py:631-671 | name and condition of the other six |
| MonthlyClose.ScopeAscending | backend/src/apps/kernels/accounting/certification_phase12.py:466 | the companies of a close are ascending and distinct |
| MonthlyClose.PassesSpec | backend/src/apps/kernels/accounting/certification_phase12.py:591-672 | the twelve checks all pass exactly when the gate's condition holds |
| MonthlyClose.GateIsMonotone | backend/src/apps/kernels/accounting/certification_phase12.py:513-533 | raising thresholds or relaxing BLOCK to ALERT never fails a passing cycle; a cycle that passes under BLOCK has no warning, so its risk is LOW |
| MonthlyClose.ManifestIsEvidence | backend/src/apps/kernels/accounting/certification_phase12.py:335-718 | two closes of the same set of companies, given in any order and repetition and run at any time, have the same manifest exactly when the subsystems gave the same evidence, for any hash of the scope |
| MonthlyClose.SameScope | backend/src/apps/kernels/accounting/certification_phase12.py:466-468 | they have the same scope and the same scope hash |
| MonthlyClose.CertifyDeterminism | backend/src/apps/kernels/accounting/certification_phase12.py:739-811 | the replay certifies exactly when the first close passes at the lax thresholds, the second gives the same evidence and the second posts nothing |
| MonthlyClose.SameEvidenceSameChecks | backend/src/apps/kernels/accounting/certification_phase12.py:591-671 | the checks depend on the evidence alone |
| MonthlyClose.ManifestIsCanonical | backend/src/apps/kernels/accounting/certification_phase12.py:361-426 | two reports have the same manifest exactly when they state the same facts: order, run ids, times and posted counts do not matter, all else does |
| MonthlyClose.SignaturesKeep | backend/src/apps/kernels/accounting/certification_phase12.py:361-396 | what the manifest keeps of a warning, a check and a row, with WARN for a missing severity |
| MonthlyClose.ManifestOrder | backend/src/apps/kernels/accounting/certification_phase12.py:375-397 | warnings by code and severity, rows by company, checks by name, each ascending |
| MonthlyClose.ManifestFields | backend/src/apps/kernels/accounting/certification_phase12.py:402-426 | the other fields of the manifest, with HIGH for a missing risk |
| MonthlyClose.CheckNamesDiffer | backend/src/apps/kernels/accounting/certification_phase12.py:591-671 | the checks of a close have different names, so their order never reaches the manifest |
| MypyBaseline.Write | qa/mypy_baseline_guard.py:61-64 | the text is determined by the set, one fingerprint a line by ascending code points, and loading it gives the set back exactly when all fingerprints are storable |
| MypyBaseline.RoundTrip | qa/mypy_baseline_guard.py:51-64 | the same for any listing of the set |
| MypyBaseline.LoadedAreStorable | qa/mypy_baseline_guard.py:51-58 | whatever the file holds, what is loaded is storable |
| MypyBaseline.ByDomain | qa/mypy_baseline_guard.py:67-72 | the number of fingerprints of each domain |
| MypyBaseline.DeltaBalances | qa/mypy_baseline_guard.py:84-105 | current + resolved = baseline + new, overall and in every domain |
| MypyBaseline.RefreshThenCheck | qa/mypy_baseline_guard.py:137-183 | a refresh followed by a check of the same report finds nothing new or resolved exactly when all fingerprints are storable |
| MypyBaseline.CheckVerdict | qa/mypy_baseline_guard.py:153-183 | a check fails exactly when there is a new fingerprint; new and resolved are the two differences |
| MypyBaseline.SplitLinesIs | qa/mypy_baseline_guard.py:54-58 | lines end at breaks, a carriage return with a line feed being one |
| MypyBaseline.LinesEnd | qa/mypy_baseline_guard.py:63 | every line ends with a line feed |
| MypyBaseline.BreaksAre | qa/mypy_baseline_guard.py:56 | the line breaks of Python, by code point |
| MypyBaseline.DomainIs | qa/mypy_baseline_guard.py:11-23 | a path belongs to the first domain whose directory it names |
| MypyBaseline.ContainsIsOccurs | qa/mypy_baseline_guard.py:13-21 | a text names another one if that occurs in it anywhere |
| MypyBaseline.SlashesIs | qa/mypy_baseline_guard.py:12 | back slashes count as slashes |
| MypyBaseline.PathIs | qa/mypy_baseline_guard.py:70 | the path of a fingerprint ends at its first bar |
| Lifecycle.Simulation.constructor | qa/product_lifecycle_full_cycle.py:75-76 | no step and no error at the start |
| Lifecycle.Simulation.Run | qa/product_lifecycle_full_cycle.py:97-157 | stages run in order up to the first failure or exception; only the last recorded step can be a failure; the error is empty exactly when all went through |
| Lifecycle.Simulation.BuildSummary | qa/product_lifecycle_full_cycle.py:2177-2207 | counts per module and of HTTP violations; PASS exactly when there was no error, no orphan and every required module has steps and no failure; after a run PASS means no failed step at all |
| Lifecycle.PassMeansClean | qa/product_lifecycle_full_cycle.py:2195-2207 | steps that all passed give no violation and no failed module |
| Lifecycle.EvaluateDelta | qa/product_lifecycle_full_cycle.py:1028-1078 | passes exactly when the total and every pair meet their minimum; the missing pairs are exactly those that do not |
| Lifecycle.DefaultTotalIsImplied | qa/product_lifecycle_full_cycle.py:953-962 | with totals that are sums and the default minimum, the pairs alone decide |

## Left out

- `localStorage`, IndexedDB, cookies, files, the HTTP transport and the clock: a stored value, an outcome or a parameter stands for each.
- ISO 8601 text: instants are milliseconds since the epoch, which is what the code compares.
- Two drains at once and rows left PROCESSING by a crash: the queue's own lock-free store does not keep the invariants there (the loading flag of the terminal page is local to it, and another tab has its own). That at most one drain runs is an assumption.
- PosQueueStorage.RunReadsBack: starts from parsed fields; stored text that is not JSON, fractional numbers and instants that are not ISO text are not modelled, nor storage writes that fail (quota).
- Fractional or not-a-number values of `maxCommands` and `nowMs`.
- PosQueueProtocol.StepKeeps: assumes fresh ids and a clock that does not run backwards.
- PosQueueTiming.BackoffSpacesFailures: assumes that a drain is not told a future time.
- PosQueueStore.Store.Drain: the executor's answers and the steps that land meanwhile are an argument with one entry per row taken.
- Base32.Base32ToBytes: upper-casing is modelled for ASCII letters; other characters are dropped here, while a few of them have an ASCII upper case in Unicode.
- HMAC, SHA-256 and Ed25519: any function with results of fixed size; base64 of keys and signatures is not modelled.
- Totp.CountersAgree: divides real numbers, so it does not model the rounding of floating-point division.
- Totp.MessagesAgree: counters beyond 64 bits, where Python raises; Python's strict base32 decoder is not modelled, both programs are given the same key.
- CheckoutMetrics.PercentileMonotone: q times n is a real product, without floating-point rounding; the same holds for the elapsed time of RecordPosCheckout.
- `record_request`, `record_sync_batch` and the other fields of `snapshot`: the same counters and window again.
- SigningMessage.MessageDetermines: a number is taken as the decimal digits ECMA-262 prints for it, so which decimals are doubles is not modelled; UTF-8 encoding of the message, which is injective except on lone surrogates.
- JsonCanonical.CanonicalText: that a number's text determines the number is taken from ECMA-262; `toJSON`, getters and prototypes other than the effect of `__proto__` are not modelled.
- Unicode order: Python compares code points and JavaScript code units; each is modelled where it is used, by `LexOrder`.
- AuthLogout.LogoutSticks: the guards that make `ensureSession`, `loadSession` and `verifyTwoFactor` request nothing (already authenticated, already loading, no challenge) are not modelled: a request is simply not issued; nor are user, ACL and bootstrap state, the CSRF header and router redirects. Reading or choosing the company context is an event of its own.
- `getPath`: a request carries the path that it yields.
- MonthlyClose.RunMonthlyClose: the subsystems' answers are arguments; details, messages and dispatch counts of the report are not modelled, nor exceptions other than those the function catches.
- The hash of the manifest: the manifest itself is compared.
- MypyBaseline.Check: starts from the fingerprints; the regular expression that parses the report and the printed delta report are not modelled.
- Lifecycle.Simulation.Run: the stages' HTTP calls are a list of answers; retries and polling inside a stage, the contract loader and the Markdown summary are not modelled.
- The intercompany transition table, the remaining guards under `qa`, the k6 scenarios, middleware and pages: finite case splits, input and output, or user interface.
