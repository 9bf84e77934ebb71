# Time-off ledger and HCM outbox: a verified model

The service files, approves and cancels time-off requests against a cached copy of the balances that
HCM owns, and submits each approval to HCM through a transactional outbox.  This project models that
core as one transition system over shared tables and proves what holds in every run, whatever the
interleaving of users, managers, webhooks, administrators and the worker, and wherever the process dies.

## How the model is laid out

| file | holds |
|---|---|
| `Types`, `Sums`, `Texts`, `Stamps`, `StateMachine`, `Rounding`, `Dates`, `Backoff` | rows and inputs, SQL sums, string order, how snapshot times compare, the lifecycle graph, and the three arithmetic parts |
| `Tables`, `Ledger` | the tables, the queries, one write set per kind of committed transaction, and for every service method which write set it commits, what it returns, or which error it throws |
| `Invariants`, `AuditTrail`, `BalanceIntegrity` | what each committed write set keeps true of the tables |
| `Outcomes` | what each transaction answers and leaves, error by error and column by column, without the functions the specification is built from |
| `Protocol`, `Safety` | the worker's memory, messages on the wire, HCM, events and runs; the inductive invariant |
| `Guarantees`, `Lifecycle`, `HcmDebits`, `Retries`, `Convergence`, `Filing`, `Reconciliation`, `Drain` | the theorems about runs |
| `Documented` | where the documents promise more than the code keeps: the input that shows it and exactly when the promise holds |
| `Repositories`, `Services`, `Workers` | the classes as the program writes them, each method proved to commit exactly the transaction, event or script specified above, error paths included |

A run is a sequence of events from empty tables: a user or manager call, a snapshot, a clock advance, a
tick, a reply to one of the worker's two awaits, the `markDone` after a mark, HCM processing a message
(any number of times, at any later moment, even after its reply was given up or the process died), an
outside change of an HCM balance, and a crash.  All nondeterminism sits in the event, so "for every run"
means for every schedule.  `Drain` adds what happens when HCM answers at once and nothing interferes.

Conventions: balances are exact reals and `Round` is `floor(100x + 0.5) / 100`; `days` is an integer;
times are integer milliseconds; an outbox row's id is its position; a request and its reservation sit at
the same position of their tables, because they are inserted together.  A transaction that throws
changes nothing.  Random ids are parameters and need not be fresh: a collision is the constraint
violation the schema raises.  Jitter is any number in [0, 1).  The clock never runs backwards.
`maxAttempts` and `batchSize` are at least 1.

## Where documents and code differ

The code was followed each time.  Each item names the run or input that shows the difference and the
member that says exactly when the promise holds.

- The effective balance "is never negative" (TRD.md:59): it can be (`Documented.EffectiveBalanceCanBeNegative`), and turns so exactly as `Guarantees.OnlyLowSnapshotsOverdraw` says.
- "Older snapshots are ignored" (src/balances/balances.service.js:49): a batch row's own `asOf` stays the text HCM sent (src/hcm/hcm.controller.js:26-32), and such a text is never older than a number (`Documented.OlderTextReplacesNewer`); `Stamps.StaleIff` and `Convergence.OrderFreeIff` give the conditions.
- A repeated `asOf` "is a no-op" (src/balances/balances.service.js:55): the version rises, and another balance replaces the cached one (`Documented.SameAsOfIsNoOpIff`).
- "A bad row can't poison the batch" (TRD.md:459): the loop has no catch.  A batch whose `asOf` is valid ISO 8601 that `Date.parse` cannot read, such as a week date, ends at its first row without a time of its own (`Documented.OneRowStopsTheBatch`, `Documented.AcceptedBatchStopsIff`).
- "Subsequent calls return" the stored response (TRD.md:229-230): if the process dies between the filing and the store, the retry files again (`Documented.LostStoreFilesTwice`, `Filing.FilesIff`).
- HCM's acceptance does not always end in CONSUMED: a request cancelled during the await stays CANCELLED and debited (`Documented.DebitedYetCancelled`, `Documented.AcceptanceConsumesIff`).
- HCM may claim a success it has not recorded (TRD.md:181-183): the request then ends CONSUMED without a debit (`Documented.FalseSuccessIsBelieved`; exactly when, in `HcmDebits.MisledIff` for a step and `HcmDebits.ConsumedIsDebitedOnce` for a run).
- HCM may debit and fail to answer (TRD.md:181-183): the retry reads the lowered balance first, and may put a debited request into review, where it can be rejected and its days released (`Documented.LostReplyEndsInReview`, `Documented.DebitedRowIff`).
- Snapshots are "idempotent" (TRD.md:162): a batch that mixes years such as "2026" with other ISO 8601 texts can leave another balance when sent again (`Documented.BareNumbersBreakReplay`, `Reconciliation.ReplayedBatchIsHarmless`).
- "Recoverable from any partial failure" (TRD.md:65): rows INFLIGHT at a crash stay so until an administrator resets them (`Documented.CrashStrandsARow`, `Documented.CrashStrandsUntilReset`).
- A manager acts on requests "whose `managerId` matches" (TRD.md:242-244): any manager may also act on a request that names none (`Documented.AnyManagerApproves`, `Lifecycle.StateChangesIff`).

## Model

| member | source | states |
|---|---|---|
| Guarantees.NoApprovalLost | src/time-off/time-off.service.js:109-164 | in every reachable state an APPROVED request has a submission that is PENDING, INFLIGHT or DEAD |
| Guarantees.OneReservationPerRequest | src/time-off/time-off.service.js:34-319 | in every reachable state each request has exactly one reservation, of its key and days: OPEN exactly in PENDING, APPROVED and REVIEW_REQUIRED, CONSUMED exactly in CONSUMED, RELEASED exactly in REJECTED, CANCELLED and HCM_FAILED |
| Guarantees.ReservedIsOpenRequestDays | src/balances/balances.repository.js:49-61 | the reserved sum of a key is the sum of days of its open requests |
| Guarantees.HistoryOnlyGrows | src/time-off/time-off.repository.js:88-113 | between any two points of a run ids, keys, dates, days, given external ids, payloads, closed reservations and the log are never rewritten |
| Guarantees.ApprovalsAreCounted | src/time-off/time-off.service.js:297-319 | a request has one outbox row per approval, and its state fixes approvals minus reviews |
| Guarantees.PayloadsAreStable | src/time-off/time-off.service.js:121-148 | external ids exist iff a row does, are unshared, and every row carries its request's key, days, dates, correlation id and external id |
| Guarantees.AuditIsComplete | src/common/audit.service.js:18-37 | replaying the log from empty rebuilds both tables and shows one lifecycle path per request |
| Guarantees.EffectiveNeverNegative | TRD.md:59 | unless the key's last applied snapshot was flagged, the effective balance is at least 0 and open days exceed the cached balance by at most 0.005 |
| Guarantees.OnlyLowSnapshotsOverdraw | src/balances/balances.service.js:57-108 | a step turns a balance negative iff it applies a snapshot more than 0.005 below the reserved days |
| Guarantees.NegativeOnlyLowered | src/balances/balances.service.js:57-108 | in every reachable state a negative balance falls further only by an applied snapshot below the cached one |
| Lifecycle.StateChangesIff | src/time-off/time-off.service.js:114-341 | a step moves a request to another state iff it comes from one of the states listed for it and the event is the call by someone entitled to it, the HCM reply or the escalation that may cause it |
| Lifecycle.Edges | src/time-off/state-machine.js:25-38 | the whole graph, told by where each edge leads |
| Lifecycle.NotTheirsIsRefused | src/time-off/time-off.service.js:331-341 | refused are exactly actors without the admin role who are no manager or whom the request passes over for another named one |
| Outcomes.FilingRefused | src/time-off/time-off.service.js:34-62 | which error a filing throws, in the order it looks, and when it throws none |
| Outcomes.FilingLeaves | src/time-off/time-off.service.js:64-99 | a filing writes the actor's manager, key, dates and reason, the reservation and the log row, and nothing else |
| Outcomes.OnlyTheNamedManager | src/time-off/time-off.service.js:331-341 | a request filed under a named manager can be approved or rejected by no other non-admin |
| Outcomes.MissingIsNotFound | src/time-off/time-off.repository.js:40-44 | an unknown id is NOT_FOUND for every call |
| Outcomes.ApprovalOutcome | src/time-off/time-off.service.js:114-164 | each of its errors in order, and each column, outbox row and log row of an approval |
| Outcomes.RejectionOutcome | src/time-off/time-off.service.js:166-200 | the same of a rejection, with the reservation released |
| Outcomes.CancellationOutcome | src/time-off/time-off.service.js:202-233 | the same of a cancellation, open to the owner and to admins |
| Outcomes.ConsumptionOutcome | src/time-off/time-off.service.js:240-261 | the same of markConsumed, with the reservation CONSUMED |
| Outcomes.FailureOutcome | src/time-off/time-off.service.js:268-291 | the same of markHcmFailed, with the reservation released and the error kept |
| Outcomes.FailureFreesDays | src/time-off/time-off.service.js:263-291 | a permanent failure lowers the reserved days of the request's key by exactly its days, and of no other key |
| Outcomes.ReviewOutcome | src/time-off/time-off.service.js:297-319 | the same of markReviewRequired, with the reservation untouched |
| Outcomes.SnapshotOutcome | src/balances/balances.service.js:57-108 | stale, refused, flagged or applied: the answer, the cached row and the log row of a snapshot |
| Outcomes.UnreadableIsRefused | src/database/schema.js:25 | a snapshot whose time is NaN is refused |
| Outcomes.RetryOutcome | src/hcm/hcm-outbox.service.js:77-104 | a failed attempt makes the row DEAD at the cap and otherwise due again 0.7 to 1.3 times the backoff from now |
| Outcomes.DoneOutcome | src/hcm/hcm-outbox.service.js:64-75 | markDone writes status, time and error of one row |
| Outcomes.ResetOutcome | src/hcm/hcm-outbox.service.js:138-149 | a reset clears attempts, wait and error of one row |
| Outcomes.ClaimedIff | src/hcm/hcm-outbox.service.js:37-62 | a row is claimed iff it is PENDING, its time has come, and fewer such rows than the batch size have lower ids |
| Outcomes.TickWhileDraining | src/hcm/hcm-outbox.worker.js:62-64 | a tick that finds another one running changes nothing |
| Outcomes.ConsumeOutcome | test/mocks/hcm-mock-server.js:57-74 | HCM debits a new id iff it holds the days, and never goes below zero by it |
| Safety.InvKept | src/hcm/hcm-outbox.worker.js:62-108 | every event keeps the whole invariant: tables, worker memory, messages on the wire, HCM |
| Safety.RunInv | src/hcm/hcm-outbox.worker.js:62-108 | every state of every run satisfies the invariant |
| Safety.ConsumedOnlyOnAcceptance | src/hcm/hcm-outbox.worker.js:94-96 | a request becomes CONSUMED only when the worker holds HCM's acceptance for it |
| Safety.MarkedIsExcused | src/hcm/hcm-outbox.worker.js:86-106 | after a mark, committed or refused, closing the row loses no approval |
| Safety.EffectAllowed | src/time-off/time-off.service.js:34-319 | whatever any event commits respects the guards the table invariants rest on |
| HcmDebits.HcmBalancesAccountForDebits | test/mocks/hcm-mock-server.js:57-74 | each HCM balance is its start plus outside changes minus the days of the distinct debited requests of the key |
| HcmDebits.DebitedAtMostOnce | TRD.md:61 | HCM debits each request at most once, also when it answers falsely |
| HcmDebits.ConsumedIsAcked | src/hcm/hcm-outbox.worker.js:94-96 | a request is CONSUMED only if its consume call was answered with success |
| HcmDebits.ConsumedIsDebitedOnce | test/mocks/hcm-mock-server.js:57-74 | after a run every CONSUMED request is debited exactly once iff each success that was false when it reached an APPROVED request has been made true since; so always when HCM tells the truth |
| HcmDebits.MisledIff | src/hcm/hcm-outbox.worker.js:94-96 | the step that first leaves a CONSUMED request undebited is exactly a false success for a row whose request is APPROVED |
| Retries.BudgetStep | src/hcm/hcm-outbox.service.js:77-104 | each completed handling uses up an attempt; only an approval or a reset grants any, at most maxAttempts |
| Retries.HandlingsAreBounded | src/hcm/hcm-outbox.service.js:37-104 | a run completes at most maxAttempts handlings per approval or reset |
| Retries.RowClaimedAtMostMaxAttempts | src/hcm/hcm-outbox.service.js:37-62 | between resets a row is claimed at most maxAttempts times, crashes included; DEAD exactly at maxAttempts |
| Retries.TotalWaitRange | src/hcm/hcm-outbox.service.js:77-103 | in every run the waits imposed on a row since its creation or reset, counted from the clock at each failure, lie between 0.7 and 1.3 times the closed form for its failures |
| Invariants.CoupledKept | src/time-off/time-off.service.js:34-319 | every write set keeps requests and reservations coupled |
| Invariants.OpenSumAfter | src/balances/balances.repository.js:97-152 | how each write set changes each key's reserved days |
| Invariants.TrackedKept | src/time-off/time-off.service.js:121-148 | every write set keeps the newest row of each APPROVED request unfinished |
| Invariants.ExternalIffRowKept | src/time-off/time-off.service.js:121-148 | an external id is set exactly with the first row |
| Invariants.DistinctExternalsKept | src/database/schema.js:47 | external ids stay unshared |
| Invariants.RetryBoundsKept | src/hcm/hcm-outbox.service.js:77-149 | unfinished rows keep attempts below maxAttempts, DEAD rows have reached it |
| AuditTrail.ReplaysKept | src/balances/balances.service.js:85-97 | the log keeps determining both tables |
| AuditTrail.ChainedKept | src/time-off/time-off.service.js:91-99 | each logged event starts from the row the log had reached and follows an edge of the graph |
| AuditTrail.LogIsPath | src/time-off/state-machine.js:25-38 | the logged states of a request form a path from PENDING ending in its last state |
| AuditTrail.ApprovalsMinusReviews | src/time-off/state-machine.js:25-38 | approvals minus reviews in the log is settled by the state |
| AuditTrail.RowsCountedKept | src/hcm/hcm-outbox.service.js:23-31 | rows and logged approvals grow together |
| BalanceIntegrity.CoveredKept | src/time-off/time-off.service.js:51-60 | filing never lets the reserved days of an unflagged key pass its balance by more than 0.005, however many are filed |
| BalanceIntegrity.EffectiveNonNegativeUnlessFlagged | src/balances/balances.service.js:18-27 | a covered, unflagged key reports at least 0 |
| BalanceIntegrity.EffectiveTurnsNegativeIff | src/balances/balances.service.js:81-83 | exactly which transaction takes a balance below zero |
| BalanceIntegrity.NegativeOnlyLoweredBySnapshot | src/balances/balances.service.js:57-108 | no transaction but an applied snapshot lowers a negative balance |
| BalanceIntegrity.AnnouncedBalanceIsReported | src/time-off/time-off.service.js:57-104 | the balance a filing announces, rounded twice, is the one read back next, and is balance less open days to the nearest hundredth |
| BalanceIntegrity.EffectiveIsNearest | src/balances/balances.service.js:18-27 | the reported balance is the cached balance less the open days to the nearest hundredth |
| BalanceIntegrity.FileThenUndo | src/time-off/time-off.service.js:166-233 | a filed request can be cancelled by its owner and rejected by an authorised manager, and both restore every key's balance exactly |
| Stamps.StaleIff | src/balances/balances.repository.js:76-80 | a snapshot is stale iff both stamps are of one kind, numbers or texts, and it is the older in that kind, or it is a bare number that is less, as a text, than the cached text |
| Stamps.OlderIsTotal | src/balances/balances.repository.js:76-80 | within a kind age is a total order |
| Convergence.CacheIsLatest | src/balances/balances.repository.js:63-95 | in every run a key caches the latest snapshot since its stamps last changed kind; version counts the snapshots that were not stale |
| Convergence.LatestIsLatest | src/balances/balances.repository.js:63-95 | unless bare numbers come beside proper texts, the arrival the upserts leave is followed only by older ones of its kind, and no newer one came before without one of the other kind between |
| Convergence.StaleIffNewerSeen | src/balances/balances.service.js:81-83 | unless bare numbers come beside proper texts, a snapshot is ignored iff a newer one of its kind came and none of the other kind since |
| Convergence.OrderFreeIff | src/balances/balances.repository.js:63-95 | with distinct stamps, and no bare numbers beside proper texts, every order of arrival leaves the same cache iff all stamps are of one kind |
| Convergence.OrderDoesNotMatter | src/balances/balances.repository.js:63-95 | two runs with the same snapshots of one kind in any order, with distinct stamps, cache the same |
| Convergence.ReplayedRunIsHarmless | src/balances/balances.service.js:57-108 | unless bare numbers come beside proper texts, repeating a stretch of a run leaves every cached balance and stamp as taking it once did |
| Reconciliation.ReachedKeepsStamps | src/balances/balances.repository.js:81-87 | in every reachable state cached stamps are as their column keeps them, which the theorems about batches ask for |
| Convergence.ClashBreaksReplay | src/balances/balances.repository.js:76-80 | a batch with bare-number texts beside proper ones that leaves another balance when fed again |
| Filing.FilesIff | src/common/idempotency.service.js:25-51 | a POST files iff the filing would commit and no stored filing of the actor under the key is 24 h old or less; while one is, its response is returned and nothing changes |
| Filing.NoKeyNoReplay | src/common/idempotency.service.js:25-65 | without a key nothing is looked up or stored, and the filing itself answers |
| Filing.FilingsAreADayApart | src/time-off/time-off.controller.js:21-32 | after a filing whose response was stored the key files again only more than 24 h later, whatever else crashes |
| Filing.StoreMirrorsFilings | src/common/idempotency.service.js:53-65 | in every run the stored row is that of the last stored filing until it expires |
| Reconciliation.BatchEscalates | src/hcm/reconciliation.service.js:66-100 | after a batch no request is APPROVED on a flagged key, flags compare with the days held at its start, escalated requests carry the reason, and nothing else moved |
| Reconciliation.BatchCaches | src/hcm/reconciliation.service.js:66-85 | while no row is refused each key caches what its cached snapshot and the batch's rows leave |
| Reconciliation.BatchLeavesStamp | src/hcm/reconciliation.service.js:69-76 | after a batch a key has the balance of its last row unless that was ignored, dated by the row's own time, else the batch's, else the clock |
| Reconciliation.RowLeavesStamp | src/hcm/reconciliation.service.js:69-76 | the same of one row, and a row without a time in a batch whose time is NaN throws |
| Reconciliation.IgnoredIffStale | src/hcm/reconciliation.service.js:66-85 | unless bare numbers come beside proper texts, a row is ignored iff a snapshot of its key and kind, cached or of an earlier row, was newer and none of the other kind came since |
| Reconciliation.ReplayedBatchIsHarmless | src/hcm/reconciliation.service.js:66-85 | unless bare numbers come beside proper texts, handling a batch with explicit times again, later and after its escalations, changes no cached balance and no stamp |
| Reconciliation.EscalateAllOf | src/hcm/reconciliation.service.js:87-100 | escalating a list of ids leaves none of them APPROVED and touches nothing else |
| Reconciliation.ApprovedIdsAreOfKey | src/time-off/time-off.repository.js:75-86 | the query returns exactly the APPROVED requests of the key |
| Reconciliation.BatchIsARun | src/hcm/reconciliation.service.js:66-85 | a batch is a run of snapshot and escalation events, so every guarantee about runs covers it |
| Drain.HealthyDrain | src/hcm/hcm-outbox.worker.js:62-96 | with a healthy HCM n ticks handle the first n times batchSize due rows in order, leave them DONE and CONSUMED, and HCM pays exactly the requests not debited before |
| Drain.TickDrains | src/hcm/hcm-outbox.worker.js:62-74 | one tick does so for one batch and leaves exactly the other rows due |
| Drain.RowOutcome | src/hcm/hcm-outbox.worker.js:76-108 | against a prompt HCM a row is closed with its request CONSUMED, closed with it in review, or retried with it left alone, exactly as the balance and the request's state decide; nothing else moves |
| Drain.TickOutcome | src/hcm/hcm-outbox.worker.js:62-74 | whatever the balances and requests, a tick ends idle, each claimed row comes out as its turn decides, and so does its request unless a later row of the tick is its too |
| Drain.TickLeaves | src/hcm/hcm-outbox.worker.js:62-74 | rows and requests of no claimed row are as the claim left them |
| Drain.RowRuns | src/hcm/hcm-outbox.worker.js:76-108 | the events of handling one row are possible and lead to the row's final state |
| Drain.DueAllExact | src/hcm/hcm-outbox.service.js:37-62 | the rows counted as due are all the due rows, each once, ascending |
| Dates.ParseAcceptsRealDates | src/time-off/dates.js:10-20 | exactly the dddd-dd-dd strings naming a real date in years 0100 to 9999 are accepted, as that date's midnight |
| Dates.ParseUndoesWriting | src/time-off/dates.js:8-20 | the accepted strings are exactly those written of real dates in years 0100 to 9999, four digits, two and two with hyphens, and parsing gives the date back |
| Dates.Epoch | src/time-off/dates.js:16 | time values count from the first day of 1970 |
| Dates.CountIsCalendarSteps | src/time-off/dates.js:27-32 | the count is one plus the number of calendar-day steps from start to end |
| Dates.CountIsDifference | src/time-off/dates.js:27-32 | a count is given iff both dates are accepted and in order |
| Dates.CountErrors | src/time-off/dates.js:27-32 | an unreadable date and an inverted range are told apart, the first one first |
| Dates.CountSplits | src/time-off/dates.js:27-32 | splitting a range loses and repeats no day |
| Dates.StringOrderIsDateOrder | src/time-off/dates.js:8-20 | accepted strings sort as their dates do |
| Dates.DayNumbersInOrder | src/time-off/dates.js:10-20 | distinct dates have distinct days, in calendar order |
| Dates.NextDayIsNext | src/time-off/dates.js:27-32 | the month-by-month successor of a date is one day number later |
| Backoff.WaitRange | src/hcm/hcm-outbox.service.js:152-157 | a wait lies in [0.7b, 1.3b) with b = min(60000, 500 * 2^k) |
| Backoff.BaseTable | src/hcm/hcm-outbox.service.js:152-157 | the waits before jitter: 1, 2, 4, 8, 16, 32 and from then on 60 seconds |
| Backoff.WaitIsEven | src/hcm/hcm-outbox.service.js:152-157 | a draw of r waits 0.7 + 0.6r of the base, in whole milliseconds |
| Backoff.WaitsIncrease | src/hcm/hcm-outbox.service.js:152-157 | waits of attempts 1 to 7 strictly increase whatever the jitter |
| Rounding.RoundTwice | src/balances/balances.service.js:111-114 | rounding before subtracting whole days changes nothing |
| Rounding.RoundAtLeast | src/time-off/time-off.service.js:343-345 | a whole number of days fits a rounded balance iff it overdraws it by at most 0.005 |
| Rounding.RoundIsNearest | src/balances/balances.service.js:111-114 | rounding gives the nearest hundredth, the upper one of two |
| Documented.EffectiveBalanceCanBeNegative | TRD.md:59 | a three-event run that shows an employee minus two days |
| Documented.OlderTextReplacesNewer | src/hcm/reconciliation.service.js:69-76 | a row stamped 2020 as text replaces a balance stamped 2026 in milliseconds, and a stamp of 1970 in milliseconds replaces that |
| Documented.SameAsOfIsNoOpIff | src/balances/balances.service.js:55-108 | a repeated asOf raises the version, and keeps the balance iff it is the cached one |
| Documented.BatchStopsIff | src/hcm/reconciliation.service.js:66-85 | a batch throws iff some row has no readable time, or a negative balance and is not stale; the first such row stops those after it |
| Documented.AcceptedBatchStopsIff | src/hcm/hcm.controller.js:26-32 | a batch the webhook accepts throws iff its asOf is unreadable and some row has none of its own |
| Documented.OneRowStopsTheBatch | TRD.md:458-460 | such a batch, whose second row keeps a good third one from being applied |
| Documented.LostStoreFilesTwice | TRD.md:229-230 | a run in which a crash before the store lets one key file two requests |
| Documented.AcceptanceConsumesIff | src/hcm/hcm-outbox.worker.js:94-106 | an accepted request ends CONSUMED iff it was still APPROVED, or CONSUMED already |
| Documented.CancelledInFlightIsDebited | src/time-off/time-off.service.js:202-233 | a request cancelled while its consume call is out is debited, CANCELLED and released |
| Documented.DebitedYetCancelled | src/time-off/time-off.service.js:202-233 | a run from the filing to that end |
| Documented.FalseSuccessIsBelieved | src/hcm/hcm-outbox.worker.js:94-96 | a run in which a false success leaves a request CONSUMED and not debited |
| Documented.DebitedRowIff | src/hcm/hcm-outbox.worker.js:81-96 | handling the row of an APPROVED request that is debited already ends it CONSUMED iff HCM still shows the days, else in review |
| Documented.LostReplyEndsInReview | TRD.md:181-183 | a run in which a lost reply ends with the request debited, REJECTED and its days released |
| Documented.BareNumbersBreakReplay | src/hcm/reconciliation.service.js:66-85 | a run after which a batch leaves another balance the second time than the first |
| Documented.AnyManagerApproves | src/time-off/time-off.service.js:331-341 | a run in which a manager nobody named approves a request that names none, up to its claim |
| Documented.CrashStrandsUntilReset | src/hcm/hcm-outbox.service.js:138-149 | after a crash an INFLIGHT row never changes until an administrator resets it, and is then due at once |
| Documented.CrashStrandsARow | src/hcm/hcm-outbox.service.js:37-62 | a run that strands the row of an APPROVED request |
| Documented.PermanentErrorOutcome | src/hcm/hcm-outbox.worker.js:97-105 | a permanent error closes its row; the worker goes on iff the request was APPROVED or had failed before, and otherwise the tick ends and strands the rows after it |
| Documented.StrandedUntilReset | src/hcm/hcm-outbox.service.js:37-62 | no tick takes up an INFLIGHT row that the worker does not hold |
| Repositories.TimeOffRepository.FindByIdOrThrow | src/time-off/time-off.repository.js:40-44 | the row with the id, or NOT_FOUND |
| Repositories.TimeOffRepository.Insert | src/time-off/time-off.repository.js:24-38 | succeeds iff no row has the id, and keeps ids distinct |
| Repositories.TimeOffRepository.ListApprovedIdsForKey | src/time-off/time-off.repository.js:75-86 | an id is returned iff it is that of an APPROVED request of the key |
| Repositories.TimeOffRepository.UpdateState | src/time-off/time-off.repository.js:88-113 | compare-and-set: moves exactly the one row still in the state it was read in, patches only given columns, refuses a taken external id |
| Repositories.OneRowMatches | src/time-off/time-off.repository.js:88-113 | the update matches one row or none |
| Repositories.ClosedIsOneRow | src/balances/balances.repository.js:134-152 | closing by request id changes that request's one open reservation and no other |
| Repositories.BalancesRepository.SumOpenReservations | src/balances/balances.repository.js:49-61 | adding up row by row gives the key's open days |
| Repositories.BalancesRepository.UpsertBalance | src/balances/balances.repository.js:63-95 | a stale snapshot changes nothing, a negative one or one without a readable time is refused, any other replaces the row and raises its version |
| Repositories.BalancesRepository.InsertReservation | src/balances/balances.repository.js:97-116 | raises the open days of the key by the days, and of no other key |
| Repositories.BalancesRepository.ReleaseReservation | src/balances/balances.repository.js:134-142 | the request holds no open reservation any more; closed ones and other requests' are untouched |
| Repositories.BalancesRepository.ConsumeReservation | src/balances/balances.repository.js:144-152 | the same with CONSUMED |
| Repositories.AuditService.LogInTx | src/common/audit.service.js:18-37 | replay finds the new row for its target and no change for any other |
| Services.TimeOffService.CreateRequest | src/time-off/time-off.service.js:34-107 | commits the filing transaction or throws its error, keeping the ledger coupled |
| Services.TimeOffService.Approve | src/time-off/time-off.service.js:114-164 | commits the approval with its outbox row, reusing an external id; CONCURRENT_UPDATE is never raised |
| Services.TimeOffService.Reject | src/time-off/time-off.service.js:166-200 | commits the rejection and the release |
| Services.TimeOffService.Cancel | src/time-off/time-off.service.js:202-233 | commits the cancellation and the release |
| Services.TimeOffService.MarkConsumed | src/time-off/time-off.service.js:240-261 | commits the consumption, or returns a CONSUMED row unchanged |
| Services.TimeOffService.MarkHcmFailed | src/time-off/time-off.service.js:268-291 | commits the failure and the release, or returns a failed row unchanged |
| Services.TimeOffService.MarkReviewRequired | src/time-off/time-off.service.js:297-319 | commits the escalation with the reservation still open |
| Services.HcmOutboxService.Enqueue | src/hcm/hcm-outbox.service.js:23-31 | the new row is the request's newest, due at once; other requests' newest rows stay |
| Services.HcmOutboxService.ClaimDue | src/hcm/hcm-outbox.service.js:37-62 | claims the first batchSize due rows in ascending order and returns copies of them |
| Services.HcmOutboxService.MarkDone | src/hcm/hcm-outbox.service.js:64-75 | closes one row |
| Services.HcmOutboxService.ScheduleRetry | src/hcm/hcm-outbox.service.js:77-104 | raises attempts, then DEAD at the cap or PENDING after the backoff |
| Services.HcmOutboxService.ResetToPending | src/hcm/hcm-outbox.service.js:138-149 | gives one row a fresh set of attempts, due at once |
| Services.BalancesService.GetEffectiveBalance | src/balances/balances.service.js:18-27 | balance less open days to the nearest hundredth, or BALANCE_NOT_FOUND |
| Services.BalancesService.ApplyHcmBalanceSnapshot | src/balances/balances.service.js:57-108 | commits the snapshot transaction with its flag and log row |
| Services.ReconciliationService.EscalateAffectedRequests | src/hcm/reconciliation.service.js:87-100 | marks every APPROVED request of the key, passing over refusals |
| Services.ReconciliationService.HandleBatch | src/hcm/reconciliation.service.js:66-85 | the tables and report of the batch, or its first error with the rows before it applied |
| Services.ReconciliationService.ReconcileKey | src/hcm/reconciliation.service.js:30-50 | a pulled snapshot acts as a batch of one; a failed pull changes nothing |
| Services.ErrorStops | src/hcm/reconciliation.service.js:66-85 | after an error the rest of a batch has no effect |
| Services.IdempotencyService.Lookup | src/common/idempotency.service.js:25-51 | the stored response unless expired; an expired row is deleted |
| Services.IdempotencyService.Store | src/common/idempotency.service.js:53-65 | replaces the row with one that lives 24 h |
| Services.TimeOffController.Create | src/time-off/time-off.controller.js:21-32 | lookup, create and store together are the POST event |
| Workers.MockHcmState.SetBalance | test/mocks/hcm-mock-server.js:32-34 | sets one key's balance and no other |
| Workers.MockHcmState.GetBalance | test/mocks/hcm-mock-server.js:36-39 | the balance set or debited last, 0 for an unknown key |
| Workers.MockHcmState.Consume | test/mocks/hcm-mock-server.js:57-74 | debits a new external id once if the balance suffices, answers a known one, refuses the rest |
| Workers.HcmOutboxWorker.StartTick | src/hcm/hcm-outbox.worker.js:62-68 | a tick while draining does nothing, any other one claims and suspends at the first await: the Tick event |
| Workers.HcmOutboxWorker.OnBalance | src/hcm/hcm-outbox.worker.js:81-94 | the resumption after the first await is the BalanceReply event, a refused mark included |
| Workers.HcmOutboxWorker.OnConsume | src/hcm/hcm-outbox.worker.js:94-106 | the resumption after the second await is the ConsumeReply event, for all three outcomes |
| Workers.HcmOutboxWorker.CloseRow | src/hcm/hcm-outbox.worker.js:95-103 | the markDone after a mark is the MarkDone event; after a refused failure it ends the tick |
| Workers.HcmOutboxWorker.HandleRow | src/hcm/hcm-outbox.worker.js:76-108 | one row handled in one go runs the row's script |
| Workers.HcmOutboxWorker.Tick | src/hcm/hcm-outbox.worker.js:62-74 | a whole tick runs the tick's script, the loop over the claimed rows included |
| Workers.HcmOutboxWorker.Restart | src/hcm/hcm-outbox.worker.js:62-74 | dying forgets the worker's memory and nothing else: the Crash event |

## Left out

- HTTP, wiring, JWT and HMAC checks, DTO validation, configuration, health and logging: plumbing around the core.
- SQL text, indexes and SQLite faults such as busy timeouts: tables are sequences and maps, and a transaction is one step.  A fault inside `markHcmFailed` would still reach its `finally` (src/hcm/hcm-outbox.worker.js:99-103) and close the row.
- Floating-point noise: balances are exact reals, and a non-finite balance in HCM's answer counts as no answer.
- `reconcileActive`, `getEffectiveBalancesForEmployee`, list and ordering queries, and the mock's `release`: they would only add easy members.
- The mock's scripted failures and call log: lost, late, failed and repeated messages are events instead.
- HCM's conduct is free: any reply, at any time, true or not.
- The audit columns for actor type, correlation id and target type, and the outbox column `op`; a balance's audit target is its key.
- What `Date.parse` makes of a batch's `asOf` is a parameter: a time, or NaN.  The time of a row is any text; ISO 8601 validation is not modelled.
- A text is read as a number if it is digits with an optional sign; blanks around the digits, exponents and the like, which ISO 8601 does not have, are not modelled.
- Convergence.CacheIsLatest: when one key gets bare numbers ("2026") beside proper texts, only the rule of each step is stated, because the two compare as texts or as numbers depending on which came first.
- Reconciliation.IgnoredIffStale: the same keys excepted; `Reconciliation.IgnoredIsStale` says the row-by-row rule for all.
- Convergence.LatestIsLatest: the same keys excepted.
- Convergence.StaleIffNewerSeen: the same keys excepted; `Stamps.StaleIff` says how any two stamps compare.
- Convergence.OrderFreeIff: the same keys excepted.
- Convergence.ReplayedRunIsHarmless: the same keys excepted.
- Reconciliation.ReplayedBatchIsHarmless: the same keys excepted, where it fails (`Documented.BareNumbersBreakReplay`).
- Each transaction reads the clock once.
- Between a mark and its `markDone` the model lets any event happen, although the code runs the two without an await: the guarantees cover more schedules than the code has.
- Drain.HealthyDrain: all rows of a tick see one clock reading and one jitter draw, which matter only for retries and those do not occur.
- `approve` does not recheck the balance, and a DEAD row leaves its request APPROVED with its days reserved: the model keeps both, and no result claims otherwise.
