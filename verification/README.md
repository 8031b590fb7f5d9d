# Verified model of the payments storage engine

This project models the transactional storage engine of the payments service as relational tables in
memory, and the command that recreates schedules, and proves what they promise.

Each transaction of the store is one atomic step that commits new tables or leaves the old ones. SQL is
given its exact meaning: `ON CONFLICT DO NOTHING RETURNING` is first-wins and returns the rows really
inserted, `ON CONFLICT DO UPDATE` updates rows that are already there, `DISTINCT ON … ORDER BY` and
`ORDER BY … LIMIT 1` take a maximum, `sort_id` is the position in a sequence. Every part has three
layers: a module of pure functions for the statements and the calls, a module of theorems about them
over all inputs and all runs, and a class whose methods change fields step by step, as the source does,
and are proved equal to the functions. What a function leaves is stated once more in plain terms, without naming
it, by the lemmas whose names end in `Outcome`. Clocks, idempotency keys and the outcome of publishing are
parameters.

| part | files |
|---|---|
| shared vocabulary | `Common.dfy` |
| transactional outbox, its protocol and its publisher | `Outbox.dfy`, `OutboxProtocol.dfy`, `OutboxQueue.dfy`, `OutboxStore.dfy` |
| what the outbox keeps of the events handed to it | `Deliveries.dfy` |
| payment ledger | `Ledger.dfy`, `LedgerTheorems.dfy`, `BigInts.dfy`, `Accumulators.dfy`, `PaymentStore.dfy` |
| ledger, outbox and publisher together | `EndToEnd.dfy` |
| balance timelines and aggregation | `Balances.dfy`, `BalanceTheorems.dfy`, `BalanceStore.dfy`, `BalanceAnswers.dfy` |
| payment initiations | `PaymentInitiations.dfy`, `PaymentInitiationTheorems.dfy`, `PaymentInitiationStore.dfy` |
| open-banking connections | `Connections.dfy`, `ConnectionTheorems.dfy`, `ConnectionStore.dfy` |
| pools | `Pools.dfy`, `PoolTheorems.dfy`, `PoolStore.dfy` |
| workflow instances | `Instances.dfy`, `InstanceTheorems.dfy`, `InstanceStore.dfy` |
| schedule identifiers and task trees | `Schedules.dfy`, `ScheduleTheorems.dfy`, `RecreateSchedules.dfy` |

`dafny verify dfyconfig.toml` checks the whole project.

## Where a promise fails

The code was kept as it is. Each of these is a lemma with the input for which the promise fails, next to the
exact condition under which it holds.

- A refund listed under another payment of the batch, with its own payment stored but not in the batch,
  is inserted and never subtracted (`StrayRefundIsStoredButNotSubtracted`). `ConservationIff` says
  exactly when a call conserves amounts.
- The comment at internal/storage/payments.go:165-168 calls the initial amount idempotent on replay.
  That holds for a replay at once; an older batch delivered again sets the initial amount back
  (`StaleReplayRestoresOldInitialAmount`, `ReplayChangesNothingIff`).
- A balance observed late, between the creation and the last confirmation of the newest row, makes the
  time of that confirmation unanswerable (`LateObservationLosesCoverage`); `CoverageIsKeptIff` says
  exactly which observations do. What is answered is right in any order of arrival, except at one
  instant after an observation stamped older than its creation (`TimeTravelAgreesIff`,
  `StaleEdgeIsReachable`), which observations made from a provider's balance never are.
- A `MarkFailed` that arrives after its event was marked processed, which one publisher cannot send,
  makes a sent event pending again (`MarkFailedIsSafeIff`).
- The deprecated `SendEvents` publishes an event and records its id past the outbox. When the event also has
  a row there that waits or has failed, its id is sent and the row is still unprocessed, so the publisher may
  send it again (`EarlyRecordLeavesTheEventPending`). `AlwaysSettledIff` says exactly when that never happens
  over a run; nothing is lost in any case (`CommittedEventsAreNeverLost`).
- When a creation time goes back, the status filter and compare-and-append see different adjustments
  (`CurrentIsLatestIff`, `BackwardClockSplitsTheTwo`).
- The reversal workflow means to keep a second reversal out while one is being processed
  (internal/connectors/engine/workflow/reverse.go:67). Its guard looks at the newest adjustment only: when
  the status of the payment arrives in between, through the plain upsert, a second reversal starts
  (`StatusUpdateLetsASecondReversalIn`). `GuardedReversalOverlapsIff` and `ReversalsOverlapIff` say exactly
  when, for rows in any order of their times. The upsert is stamped with the provider's time
  (internal/connectors/engine/workflow/fetch_payments.go:104-110): a status stamped later than the workflow's
  clock stays the newest adjustment, and then reversals start even one right after the other
  (`FutureStatusLetsAdjacentReversalsIn`). `ReversalsAreAdjacentIff` says exactly when; with rows in order
  they never do (`ReversalsAreNeverAdjacent`).
- The id of a pool event is a hash of the pool and its accounts. An account added, removed and added
  again, and an update of a pool's query, hand off events that are never stored
  (`ReAddedAccountIsNotAnnounced`, `QueryUpdateIsNotAnnounced`, with `HandedOffIsStoredIff`). In the same
  way a stale ERROR of a connection, delivered again, leaves two reconnections in a row in the outbox
  (`StaleErrorHidesADisconnection`), and a reconnection is never stored after a data sync of the same
  time, whose event has the same fields (`SyncSwallowsReconnection`); `EmittedEventIsStoredIff` is the
  condition. Over a run, what is stored is what is announced without the repetitions, in
  `PoolTheorems.StoredAreFirstAnnouncements` and `ConnectionTheorems.StoredAreFirstAnnouncements`, and all of
  it is stored exactly if no identifier repeats (`EveryAnnouncementIsStoredIff`).
- The error streak counts running instances, which have no error, although the comment at
  internal/storage/workflow_instances.go:214-215 speaks of the last executions: a schedule reaches the threshold
  exactly if those all failed and none of its last instances is running (`FailedExecutionsAreListedIff`).
- Orders and conversions are scheduled by the engine but missing from the command's table, so their
  schedules are never recreated (`UnlistedCapabilities`, `RoundTrip`); a recreated FETCH_OTHERS
  sub-schedule loses the name of its task; one that the engine started from something else than an account,
  such as a payment (internal/connectors/engine/workflow/fetch_payments.go:150-153), is rebuilt from the account of
  the same reference or not at all (both in `SubScheduleIsRecreatedIff`); periodic root tasks of one type
  share an identifier and race for it (`RootIsRecreatedInEveryOrderIff`); the search for the tasks that
  follow passes over a match without any (`SearchFindsFirstIff`, `RepeatedTypeSkipsNil`). The order
  of the table, which the comment at cmd/recreate_schedules.go:28 calls necessary, is not
  (`ParseIgnoresTableOrder`).

## Model

| member | source | states |
|---|---|---|
| OutboxStore.Store.OutboxEventsInsert | internal/storage/outbox.go:36-78 | An event without key aborts unchanged; otherwise events not recorded as sent are inserted, the first one of an id winning |
| OutboxStore.Store.OutboxEventsPollPending | internal/storage/outbox.go:105-125 | Only rows that wait, oldest first, none newer than a waiting row left out; at most the limit when it is one or more, and every waiting row when there are fewer or no limit |
| OutboxStore.Store.OutboxEventsMarkFailed | internal/storage/outbox.go:127-153 | The row gets the given retry count and waits again below five retries unless the error is not retryable, else it is FAILED; its other columns and other rows stay |
| OutboxStore.Store.OutboxEventsMarkProcessedAndRecordSent | internal/storage/outbox.go:155-205 | Nothing for no ids, an error for unequal lengths, else the rows are PROCESSED and the ids recorded together |
| OutboxStore.Store.OutboxEventsDeleteOldProcessed | internal/storage/outbox.go:207-215 | A row stays exactly when it is not PROCESSED or not older than the time; ids stay distinct and no recorded id is forgotten |
| Outbox.DropExpiredKeeps | internal/storage/outbox.go:207-215 | Exactly the unexpired rows stay, with distinct ids |
| Outbox.DropExpiredCounts | internal/storage/outbox.go:207-215 | Each unexpired row stays as often as it was there |
| OutboxStore.Store.EventsSentUpsert | internal/storage/events.go:21-30 | The id is recorded as sent, nothing else changes |
| OutboxStore.Store.EventsSentExists | internal/storage/events.go:48-59 | True exactly for recorded ids |
| OutboxStore.Store.SendEvents | internal/connectors/engine/activities/send_events.go:43-74 | A success is the protocol's record step, whether the event was sent now or before; a failure records nothing, even when the event went out |
| OutboxStore.Store.OutboxPublishPendingEvents | internal/connectors/engine/activities/outbox_publisher.go:14-58 | One call succeeds exactly when no call of the store it needs fails, and is then one round of the protocol; otherwise it stops where the first one fails, as a crash of the protocol does |
| OutboxProtocol.FailedCallIsSafe | internal/connectors/engine/activities/outbox_publisher.go:25-55 | A call that stops anywhere has marked the rejected events it came to and nothing else, records no id, keeps the invariant, loses no id and leaves no further sent id with an unprocessed row |
| Outbox.InsertRowsExtends | internal/storage/outbox.go:71-77 | An insert keeps every stored row, adds each new id once and takes rows from the statement only |
| Outbox.InsertAppend | internal/storage/outbox.go:36-78 | Inserting two batches one after the other is inserting their concatenation |
| Outbox.InsertMakesKnown | internal/storage/outbox.go:36-78 | After an insert the ids stored or sent are those before it and those of the events |
| Outbox.InsertOne | internal/storage/outbox.go:54-77 | A single event is stored exactly when its id is neither stored nor recorded as sent |
| Outbox.InsertErrors | internal/storage/outbox.go:36-52 | An event without key aborts the insert, and nothing else does; recorded ids stay |
| Outbox.AddedAreFirst | internal/storage/outbox.go:36-78 | A row that an insert adds is the first event of its id in the statement, with an id not stored or sent before |
| Outbox.InsertedEventWaits | internal/storage/outbox.go:36-78 | A new event whose id was not known is afterwards a PENDING row with no retry |
| Outbox.PollLimits | internal/storage/outbox.go:105-113 | How many events a poll returns, for any table: the limit, or all that wait |
| Outbox.MarkFailedOutcome | internal/storage/outbox.go:127-153 | Below five retries a retryable failure leaves the row PENDING, else FAILED; no other column but the retry count and no other row changes |
| Outbox.MarkProcessedOutcome | internal/storage/outbox.go:155-205 | Rows of the ids are PROCESSED with all else kept, other rows stay, and exactly the given ids are recorded besides |
| Outbox.PollFacts | internal/storage/outbox.go:105-125 | A poll returns distinct waiting rows, oldest first, no more than a limit of one or more, all of them when there are fewer or no limit, and every waiting row it skips is not older |
| OutboxProtocol.StepKeepsInv | internal/storage/outbox.go:36-215 | Every step of the protocol keeps: distinct ids, PROCESSED only when recorded as sent, PENDING only with retries left, and a publisher that holds pending events once |
| OutboxProtocol.StepKeepsSettledIff | internal/storage/outbox.go:36-215 | Of all steps only a direct record that finds a row waiting or failed leaves a sent id with an unprocessed row |
| OutboxProtocol.EventsSentUpsertIsSafeIff | internal/storage/events.go:21-30 | A record alone leaves its id settled exactly when no row of it waits or has failed, and unsettles no other id |
| OutboxProtocol.AlwaysSettledIff | internal/connectors/engine/activities/send_events.go:65-71 | Over every run: no state has the id sent with an unprocessed row exactly when each direct record of it found none |
| OutboxProtocol.EarlyRecordLeavesTheEventPending | internal/connectors/engine/activities/send_events.go:65-71 | The steps after which an event is recorded as sent and still waits to be published |
| OutboxProtocol.StepKnows | internal/storage/outbox.go:36-215 | Only inserts and direct records make an id known, and no step forgets one |
| OutboxProtocol.RunKeepsInv | internal/storage/outbox.go:36-215 | The same over every run |
| OutboxProtocol.SentIsNeverPendingAgain | internal/storage/outbox.go:43-77 | Once an id is recorded as sent, and not too early, no later state of any run has a pending or failed row for it, through clean-up, new inserts and new records |
| OutboxProtocol.CommittedEventsAreNeverLost | internal/storage/outbox.go:71-77 | Every committed id is, in every later state, a stored row or recorded as sent |
| OutboxProtocol.FailedIsAbsorbing | internal/storage/outbox.go:134-149 | A FAILED row stays stored unchanged in every later state, and its id is recorded as sent exactly when some direct record does it |
| OutboxProtocol.MarkFailedIsSafeIff | internal/storage/outbox.go:127-153 | A mark outside the protocol keeps the invariant and a settled id exactly when the event is not stored or not yet sent |
| OutboxProtocol.RoundOutcome | internal/connectors/engine/activities/outbox_publisher.go:14-58 | After a whole call each delivered event is PROCESSED and recorded, each rejected one has one retry more and waits below five of them unless the error is not retryable, every other row stays and no other id is recorded |
| OutboxProtocol.RoundDecreases | internal/connectors/engine/activities/outbox_publisher.go:14-58 | A round takes a remaining retry away for every waiting event, up to the limit when it is one or more |
| OutboxProtocol.RoundsDrainTheQueue | internal/storage/outbox.go:105-153 | After as many rounds as there were remaining retries nothing is pending, whatever the limits and outcomes, and no further sent id has an unprocessed row |
| OutboxQueue.RoundMakesProgress | internal/storage/outbox.go:105-153 | While an event of an age is pending, a round takes a retry away from the events of that age, however many later ones wait |
| OutboxQueue.NoEventStarves | internal/storage/outbox.go:105-153 | With later events inserted between the calls, calls that fail half-way and clean-up, nothing of an age is pending after as many completed calls as the rows of that age had remaining retries |
| OutboxQueue.EachEventIsSentOrFails | internal/storage/outbox.go:105-205 | An event of that age has then been sent or has failed for good, and not both unless it is recorded directly |
| Deliveries.InsertAppendsFirsts | internal/storage/outbox.go:36-78 | An insert appends exactly the first event of each id that is not known |
| Deliveries.StoredAreFirsts | internal/storage/outbox.go:36-78 | Over every run of transactions, the events stored are those handed off without the ones whose id came before, if the outbox keeps their ids in between |
| BigInts.BigInt.Add | internal/storage/payments.go:146-155 | The receiver holds the sum, also when it is one of the arguments |
| BigInts.BigInt.Copy | internal/storage/payments.go:713-719 | A fresh object with the same value |
| Accumulators.Accumulator.AddInPlace | internal/storage/payments.go:145-146 | The amount of the id grows in place; every other id's amount stays |
| Accumulators.Accumulator.Open | internal/storage/payments.go:147-152 | A row with a fresh copy is opened and found under its id |
| Accumulators.Accumulator.Add | internal/storage/payments.go:143-163 | Whether the id has a row or not, its amount grows by the value, in objects of the accumulator or fresh ones |
| Accumulators.Accumulator.Put | internal/storage/payments.go:176-183 | The last amount put for an id wins, in a fresh object |
| PaymentStore.InsertPaymentRows | internal/storage/payments.go:90-98 | First-wins insertion of the batch; a nil amount aborts |
| PaymentStore.CopyAdjustment | internal/storage/payments.go:713-731 | A row whose amount is fresh and equal, or nil |
| PaymentStore.AdjustmentRows | internal/storage/payments.go:73-80 | All adjustments in input order, none sharing an amount with the caller |
| PaymentStore.InsertAdjustmentRows | internal/storage/payments.go:105-115 | The rows really inserted, in order, with fresh amounts |
| PaymentStore.BuildPaymentMap | internal/storage/payments.go:117-122 | The loop builds the map from id to payment |
| LedgerTheorems.PaymentMapLastWins | internal/storage/payments.go:117-122 | Of several payments with one id the last is in that map |
| PaymentStore.AddAdjustment | internal/storage/payments.go:134-163 | One adjustment moves exactly the statement and payment it should; the other statement's rows stay, and amounts stay unshared |
| PaymentStore.AccumulateDeltas | internal/storage/payments.go:124-163 | Both accumulators hold the deltas of the inserted adjustments, in fresh amounts that nothing shares; no amount of the caller or of a row is written |
| PaymentStore.DeltasAreTotals | internal/storage/payments.go:134-163 | Those deltas are, for every payment of the batch, the totals of its adjustments of each kind |
| PaymentStore.InitialAmounts | internal/storage/payments.go:165-185 | The accumulator holds the last AMOUNT_ADJUSTMENT of each payment and nothing else |
| PaymentStore.UpdateInitialAmounts | internal/storage/payments.go:187-196 | The statement updates exactly the accumulated payments, all stored already |
| PaymentStore.UpdateAmounts | internal/storage/payments.go:198-218 | Each accumulated payment moves by its delta, up or down, once; all are stored already |
| PaymentStore.UpdatesAreAdjustAll | internal/storage/payments.go:187-218 | The three statements together set initial amounts and move amounts as the specification of the call says |
| PaymentStore.BuildEvents | internal/storage/payments.go:220-278 | One pending event for each inserted adjustment whose payment is in the batch, under the payment's connector |
| PaymentStore.Store.PaymentsUpsert | internal/storage/payments.go:72-292 | Commits exactly the specified tables or leaves them as they were; writes no big integer of the caller |
| LedgerTheorems.NetIsEffects | internal/storage/payments.go:143-162 | Captures less refunds of a payment are the sum of the effects of its adjustments: plus CAPTURE and REFUND_REVERSED, minus REFUNDED, nil as zero |
| LedgerTheorems.NewPaymentOutcome | internal/storage/payments.go:90-218 | A new payment has connector, details and amount of its first entry, the amount moved by the effects of its new adjustments, and as initial amount the last AMOUNT_ADJUSTMENT of the batch or else that of the entry |
| LedgerTheorems.StoredPaymentOutcome | internal/storage/payments.go:90-218 | A stored payment keeps connector and details; its initial amount changes to the last AMOUNT_ADJUSTMENT of the batch only, its amount by the effects of its new adjustments |
| LedgerTheorems.RunsKeepColumns | internal/storage/payments.go:90-196 | Over every run a payment is stored exactly if a committed batch has it, with connector and details of its first entry, and as initial amount the last committed AMOUNT_ADJUSTMENT or else that of the first entry |
| LedgerTheorems.UpsertOutcome | internal/storage/payments.go:72-115 | A missing amount and an adjustment without payment abort, nothing else does; otherwise the new adjustments follow the stored ones, each id once |
| LedgerTheorems.ConservationIff | internal/storage/payments.go:90-218 | A call keeps amount = first amount + effects of stored adjustments exactly when the adjustments it stores for payments outside the batch cancel out |
| LedgerTheorems.RunsConserveAmounts | internal/storage/payments.go:90-218 | Conservation over every run of batches whose adjustments name their own payment, whatever happens to the outbox |
| LedgerTheorems.ReplayEffect | internal/storage/payments.go:100-115 | A batch already absorbed can only set initial amounts |
| LedgerTheorems.ReplayChangesNoAmount | internal/storage/payments.go:100-163 | After any run, running an earlier batch again changes no amount, adjustment or outbox row |
| LedgerTheorems.ReplayChangesNothingIff | internal/storage/payments.go:165-196 | A replay changes nothing at all exactly when the initial amounts are still those it sets |
| LedgerTheorems.ImmediateReplayIsIdentity | internal/storage/payments.go:100-196 | Running the same batch again at once is the identity |
| LedgerTheorems.BatchesSplit | internal/storage/payments.go:72-292 | One call with A followed by B leaves the same payments, adjustments, amounts, initial amounts and outbox ids as two calls |
| LedgerTheorems.RunsAnnounceEveryAdjustment | internal/storage/payments.go:220-286 | In every run, the event of every stored adjustment is in the outbox or recorded as sent |
| LedgerTheorems.PaymentEventsAreNew | internal/storage/payments.go:264-275 | The events of a call enter the outbox as its protocol requires |
| LedgerTheorems.NewAdjustmentWaits | internal/storage/payments.go:262-286 | After a commit the event of a new adjustment, if not known, is a PENDING row with no retry under its key and the connector of its payment |
| EndToEnd.EveryAdjustmentIsAccountedFor | internal/storage/payments.go:90-286 | In every run of upserts, publisher steps, crashes, clean-up and direct records, amounts are conserved and the event of each stored adjustment is recorded as sent or held in an unprocessed row: never neither, and never both unless it was recorded directly too early |
| EndToEnd.AlwaysSettledIff | internal/connectors/engine/activities/send_events.go:65-71 | In these runs too, no state has an id sent with an unprocessed row exactly when each direct record of it found none |
| EndToEnd.DrainedMeansSentOrFailed | internal/storage/outbox.go:105-205 | After enough publisher rounds the event of every stored adjustment has been sent or its row has failed for good, and not both unless it was recorded directly too early |
| EndToEnd.SentOrFailedWhileRunning | internal/storage/outbox.go:105-205 | The same for the adjustments announced until a time, while later events keep coming in and calls fail half-way |
| LedgerTheorems.StrayRefundIsStoredButNotSubtracted | internal/storage/payments.go:139-142 | The input for which conservation fails |
| LedgerTheorems.SetsInitialAmount | internal/storage/payments.go:165-196 | A batch with one AMOUNT_ADJUSTMENT sets the initial amount to it, whatever was stored |
| LedgerTheorems.StaleReplayRestoresOldInitialAmount | internal/storage/payments.go:165-196 | The run of two batches in which the first one, delivered again, sets the initial amount back to another value |
| LedgerTheorems.LastAmountAdjustmentIsLast | internal/storage/payments.go:172-184 | Within a payment the last AMOUNT_ADJUSTMENT with an amount decides |
| LedgerTheorems.LastInitialIsLast | internal/storage/payments.go:171-185 | Across a batch the last payment that has one decides |
| LedgerTheorems.LatestAdjustmentIsMaximal | internal/storage/payments.go:346-368 | The latest adjustment is the newest of its payment, the last stored among equals, and exists exactly when the payment has one |
| LedgerTheorems.ListingAgreesWithGet | internal/storage/payments.go:636-645 | The listing shows the status of PaymentsGet for exactly the payments that have adjustments |
| BalanceStore.Store.InsertBalance | internal/storage/balances.go:116-183 | One observation changes the rows as specified, or fails and leaves them |
| BalanceStore.Store.BalancesUpsert | internal/storage/balances.go:37-114 | A batch commits all its observations with their events, or nothing |
| BalanceStore.Store.SelectBalances | internal/storage/balances.go:302-312 | For each queried account and asset the newest matching row, and no other key |
| BalanceStore.Store.BalancesGetFromAccountIDs | internal/storage/balances.go:290-342 | Picked for an account and asset is the newest row, or, at a time that is not zero, the newest with created_at <= time <= last_updated_at; an asset is reported exactly when a queried account has a row picked, with each such account once and the sum of these rows, whatever duplicates and order the query has |
| BalanceTheorems.InsertBalanceProjects | internal/storage/balances.go:116-183 | An observation changes the timeline of its own account and asset only |
| BalanceTheorems.RunCompressesTheLog | internal/storage/balances.go:37-114 | After every run each timeline is the compression of the committed observations of its key |
| BalanceTheorems.RunsAreTiled | internal/storage/balances.go:133-180 | In every reachable table, in any order of arrival, rows are strictly newer one after the other, each ends where the next begins, and neighbours differ |
| BalanceTheorems.ObservationCollidesIff | internal/storage/balances.go:151-158 | An observation fails exactly when the newest row has its instant and another balance |
| BalanceTheorems.FirstErrorAborts | internal/storage/balances.go:56-60 | The first failing observation aborts the batch with its error |
| BalanceTheorems.CompressionAgrees | internal/storage/balances.go:133-180 | Compression loses no balance of the accepted observations at any instant, in any order of arrival |
| BalanceTheorems.OrderedLogsAreAccepted | internal/storage/balances.go:133-136 | Of observations that arrive in order none is ignored |
| BalanceTheorems.SelectOnTiled | internal/storage/balances.go:302-312 | Which row the time-travel query picks on a tiled timeline, and when none |
| BalanceTheorems.TimeTravelAgreesIff | internal/storage/balances.go:302-312 | After any run, in any order of arrival, the query answers exactly on the covered times, with the last accepted balance exactly off the stale edge |
| BalanceTheorems.StaleEdgeIsReachable | internal/storage/balances.go:161-168 | The batch of two observations that reaches a stale edge |
| BalanceTheorems.ProviderBalancesTimeTravel | pkg/domain/models/balances.go:203-226 | For observations made from provider balances, in any order of arrival: exactly between the first and the last accepted one, exactly the balance last accepted |
| BalanceTheorems.OrderedProviderBalancesTimeTravel | pkg/domain/models/balances.go:203-226 | Delivered in order: exactly between the first and the last observation, exactly the balance last observed |
| BalanceTheorems.CoverageIsKeptIff | internal/storage/balances.go:133-180 | An observation keeps every answer exactly when it is ignored, nothing was answered, or it lasts as long as the timeline did |
| BalanceTheorems.LateObservationLosesCoverage | internal/storage/balances.go:152-172 | The failing family: another balance observed between the creation and the last confirmation of the newest row |
| BalanceTheorems.ListedRowsAndAnswers | internal/storage/balances.go:232-250 | The time-travel answers at the times of a window are the rows listed for it, except the row that ends where the window begins and a last row stamped as ending before it began |
| BalanceTheorems.SumOverOneLess | internal/storage/balances.go:313-322 | A sum over a set of accounts does not depend on the order of the rows |
| BalanceTheorems.ContributionIsObserved | internal/storage/balances.go:302-322 | What a sum at a time takes from an account is the balance observed there |
| BalanceTheorems.SelectedIsPicked | internal/storage/balances.go:302-312 | The query selects a row exactly if one is picked in that sense, and then that one |
| BalanceAnswers.AnswersAreObserved | internal/storage/balances.go:290-342 | Over every run, the amount of an asset is what the accepted observations of the queried accounts show together at the time asked for, an account asked for twice counting once; at a time other than zero this is for observations stamped with their creation time |
| BalanceAnswers.NewestIsLastAccepted | internal/storage/balances.go:302-312 | Without a time the row selected holds the balance accepted last, over every run |
| BalanceTheorems.ObservationIsAnnouncedIff | internal/storage/balances.go:133-136 | An observation is stored and announced exactly when no row of its key is newer; otherwise nothing changes |
| BalanceTheorems.CommittedBatchIsAnnounced | internal/storage/balances.go:52-106 | A committed batch makes known the events of exactly the announced observations |
| BalanceTheorems.ChangedAreCurrent | internal/storage/balances.go:52-65 | The announced observations of a batch are exactly those than which no stored row of their key was newer when their turn came |
| BalanceTheorems.EventsAreNew | internal/storage/balances.go:67-98 | Their events are PENDING with no retry, one each, under its own key and connector |
| BalanceTheorems.AnnouncedObservationWaits | internal/storage/balances.go:67-106 | After a commit the event of an announced observation, if not known, is a PENDING row with no retry |
| BalanceTheorems.StaleBatchIsIgnored | internal/storage/balances.go:133-136 | A batch that meets only newer rows changes and announces nothing |
| PaymentInitiationStore.Store.PaymentInitiationsInsert | internal/storage/payment_initiations.go:73-197 | A new initiation is stored with its new adjustments and their events, or nothing is |
| PaymentInitiationStore.Store.PaymentInitiationAdjustmentsUpsert | internal/storage/payment_initiations.go:517-585 | An adjustment and its event are appended unless the id is stored |
| PaymentInitiationStore.Store.PaymentInitiationAdjustmentsUpsertIfPredicate | internal/storage/payment_initiations.go:587-680 | Compare-and-append as specified, with the answer it gives |
| PaymentInitiationTheorems.CompareAndAppend | internal/storage/payment_initiations.go:601-679 | NotFound exactly without any adjustment; true, and one more row with its event, exactly when the newest row is acceptable and the id new; else false and nothing changes |
| PaymentInitiationTheorems.AppendOutcome | internal/storage/payment_initiations.go:517-585 | A plain append: nothing for a stored id, an error without the initiation, else one more row, in terms of the tables |
| PaymentInitiationTheorems.AppendedAdjustmentWaits | internal/storage/payment_initiations.go:560-585 | After an append its event, if not known, is a PENDING row with no retry |
| PaymentInitiationTheorems.InsertOutcome | internal/storage/payment_initiations.go:73-140 | A stored initiation and a new adjustment without initiation abort, nothing else does; otherwise the initiation and the new adjustments are stored, after the old ones |
| PaymentInitiationTheorems.InsertedInitiationWaits | internal/storage/payment_initiations.go:100-192 | After a new initiation its event and those of its new adjustments, where not known, are PENDING rows with no retry |
| PaymentInitiationTheorems.HistoriesArePaths | internal/storage/payment_initiations.go:587-680 | In every ordered run whose appends respect a relation, the whole history is a path of it |
| PaymentInitiationTheorems.AtMostOneDecision | internal/storage/payment_initiations.go:587-680 | If nothing may follow a decision, at most one is ever appended, as the last row |
| PaymentInitiationTheorems.ReversalsAreNeverAdjacent | internal/connectors/engine/workflow/reverse.go:66-82 | In ordered runs that reverse through the guard no two adjacent adjustments start a reversal |
| PaymentInitiationTheorems.GuardedReversalOverlapsIff | internal/connectors/engine/workflow/reverse.go:66-82 | A guarded reversal is let in while one is open exactly when the newest row, which the guard reads, is no start and the last appended row about reversals is, whatever the times of the rows |
| PaymentInitiationTheorems.ReversalsOverlapIff | internal/connectors/engine/workflow/reverse.go:66-82 | Over every run: two reversals overlap exactly when a start was attempted in that situation |
| PaymentInitiationTheorems.ReversalsAreAdjacentIff | internal/connectors/engine/workflow/reverse.go:66-82 | Over every run: two adjacent adjustments start a reversal exactly when a start was attempted right after another that was not the newest row |
| PaymentInitiationTheorems.FutureStatusLetsAdjacentReversalsIn | internal/connectors/engine/workflow/fetch_payments.go:104-110 | The run with a status stamped later than the workflow's clock that ends with two adjacent, open reversals |
| PaymentInitiationTheorems.StatusUpdateLetsASecondReversalIn | internal/connectors/engine/activities/storage_payment_initiations_update_from_payment.go:17-31 | The run with a status update in between that ends with two open reversals |
| PaymentInitiationTheorems.LatestIsNewest | internal/storage/payment_initiations.go:601-607 | The row that compare-and-append reads is a newest one of its initiation and exists exactly when it has any |
| PaymentInitiationTheorems.CurrentIsTheLastAppended | internal/storage/payment_initiations.go:305-311 | The anti-join selects exactly one row of every initiation that has one, the last appended |
| PaymentInitiationTheorems.CurrentIsLatestIff | internal/storage/payment_initiations.go:305-311 | The filter and compare-and-append see the same row exactly when none is newer than the last appended |
| PaymentInitiationTheorems.BackwardClockSplitsTheTwo | internal/storage/payment_initiations.go:305-311 | The input for which they differ |
| PaymentInitiationTheorems.RunsAnnounceEverything | internal/storage/payment_initiations.go:100-192 | In every run the event of every initiation and adjustment is in the outbox or recorded as sent |
| ConnectionStore.Store.OpenBankingConnectionsUpsert | internal/storage/open_banking_connections.go:457-586 | Status, error, update time and metadata are overwritten, a given token is stored and at most one event emitted, or nothing changes |
| ConnectionStore.Store.OpenBankingConnectionsUpdateLastDataUpdate | internal/storage/open_banking_connections.go:588-644 | The data time of an existing connection changes; the event is emitted in any case |
| ConnectionStore.Store.OpenBankingConnectionsDelete | internal/storage/open_banking_connections.go:681-693 | The connection goes, its token stays, nothing is emitted |
| ConnectionTheorems.ReconnectionsAnswerDisconnections | internal/storage/open_banking_connections.go:468-574 | In every run, through deletes and re-creations, each reconnection answers a disconnection no other has answered |
| ConnectionTheorems.NeverReconnectedFirstOrTwice | internal/storage/open_banking_connections.go:468-574 | No trace starts with RECONNECTED and between two of them is a DISCONNECTED |
| ConnectionTheorems.ReconnectsIff | internal/storage/open_banking_connections.go:514-574 | An upsert announces a reconnection exactly when it takes a stored connection from ERROR to ACTIVE, and a disconnection exactly when it leaves it in ERROR |
| ConnectionTheorems.DisconnectionIsAnsweredIff | internal/storage/open_banking_connections.go:514-574 | After any run, an upsert answers an open disconnection exactly when it stores ACTIVE over ERROR; a deletion in between leaves it open |
| ConnectionTheorems.EmittedEventIsStoredIff | internal/storage/open_banking_connections.go:533-580 | An emitted event reaches the outbox exactly when its id is not known |
| ConnectionTheorems.UpsertOutcome | internal/storage/open_banking_connections.go:484-512 | Status, update time, error and metadata are the given ones, creation and data time those of a stored connection; a given token is stored; no other connection or token changes |
| ConnectionTheorems.DataUpdateOutcome | internal/storage/open_banking_connections.go:588-644 | Only the data time of the connection changes, if it is stored |
| ConnectionTheorems.DeleteOutcome | internal/storage/open_banking_connections.go:681-693 | Exactly this connection goes; tokens and outbox stay |
| ConnectionTheorems.AnnouncedStatusWaits | internal/storage/open_banking_connections.go:513-577 | After an upsert the event it emitted, if not known, is a PENDING row with no retry |
| ConnectionTheorems.AnnouncedSyncWaits | internal/storage/open_banking_connections.go:588-644 | The same for the event of a data update |
| ConnectionTheorems.StaleErrorHidesADisconnection | internal/storage/open_banking_connections.go:528-535 | The run after which the outbox holds two reconnections in a row, for any keys that tell the three events apart |
| ConnectionTheorems.SyncSwallowsReconnection | internal/storage/open_banking_connections.go:553-577 | After a data sync of the same time a reconnection is emitted and never stored |
| ConnectionTheorems.StoredAreFirstAnnouncements | internal/storage/open_banking_connections.go:516-577 | Over every run, the events stored are those of the announced payloads without the repetitions |
| ConnectionTheorems.EveryAnnouncementIsStoredIff | internal/storage/open_banking_connections.go:516-577 | All announcements of a run are stored exactly when no identifier repeats |
| PoolStore.Store.PoolsUpsert | internal/storage/pools.go:42-119 | Commits the specified change with its event, or nothing |
| PoolStore.Store.PoolsUpdateQuery | internal/storage/pools.go:163-193 | The query of an existing pool changes; the event is handed off in any case |
| PoolStore.Store.PoolsAddAccount | internal/storage/pools.go:279-347 | Unknown account and missing pool abort; a new membership is stored with the event of the accounts read back |
| PoolStore.Store.PoolsRemoveAccount | internal/storage/pools.go:349-415 | The membership goes, with the event of the accounts filtered in memory |
| PoolStore.Store.PoolsDelete | internal/storage/pools.go:209-277 | Pool and members go, announced and answered true exactly when the pool existed |
| PoolTheorems.RunIsSound | internal/storage/pools.go:42-415 | In every run members are distinct and belong to existing pools |
| PoolTheorems.EventsMirrorMembership | internal/storage/pools.go:303-408 | After any run, adding or removing hands off an event exactly when the membership of an existing pool changed, with the membership after the step; other pools stay |
| PoolTheorems.FilteredIsReRead | internal/storage/pools.go:389-399 | Filtering the accounts in memory gives what reading them again would give |
| PoolTheorems.UpsertAnnouncesNewPoolsOnly | internal/storage/pools.go:66-112 | A new pool is announced with the accounts it was given; accounts added to an existing static pool become members silently; dynamic pools store none |
| PoolTheorems.DeleteRemovesThePool | internal/storage/pools.go:209-277 | Exactly this pool and its members go, announced exactly when it existed |
| PoolTheorems.HandedOffIsStoredIff | internal/storage/pools.go:142-158 | A handed-off event reaches the outbox exactly when its id is not known |
| PoolTheorems.EventsAreNew | internal/storage/pools.go:121-158 | The event of a pool is PENDING with no retry, keyed by the pool and its accounts, that of a deletion by the pool, without connector |
| PoolTheorems.HandedOffWaits | internal/storage/pools.go:121-158 | After a commit the event handed off, if not known, is a PENDING row with no retry |
| PoolTheorems.UpsertErrors | internal/storage/pools.go:42-100 | An unknown account aborts, and so does a new pool whose name is taken; nothing else does |
| PoolTheorems.AddOutcome | internal/storage/pools.go:279-347 | An unknown account, or a missing pool of a new member, aborts; a new member is stored last, a stored one changes nothing |
| PoolTheorems.RemoveOutcome | internal/storage/pools.go:349-415 | Exactly this member goes |
| PoolTheorems.UpdateQueryOutcome | internal/storage/pools.go:163-193 | The query of a stored pool changes, no other column, pool or member |
| PoolTheorems.ReAddedAccountIsNotAnnounced | pkg/domain/models/pools.go:95-108 | Add, remove, add again: the last change of membership leaves the outbox as it was |
| PoolTheorems.QueryUpdateIsNotAnnounced | pkg/domain/models/pools.go:95-108 | A query update of a pool with the accounts of its creation leaves the outbox as it was |
| PoolTheorems.StoredAreFirstAnnouncements | internal/storage/pools.go:121-158 | Over every run, the events stored are those of the announced pools and account lists without the repetitions |
| PoolTheorems.EveryAnnouncementIsStoredIff | internal/storage/pools.go:121-158 | All announcements of a run are stored exactly when no identifier repeats |
| InstanceStore.Store.InstancesUpsert | internal/storage/workflow_instances.go:36-45 | First-wins insertion; a missing schedule aborts |
| InstanceStore.Store.InstancesUpdate | internal/storage/workflow_instances.go:47-60 | Update time, termination and error of the row with the key change, and not its creation time; `UpdateOutcome` says what of it changes |
| InstanceTheorems.TopRowsFailedIff | internal/storage/workflow_instances.go:225-236 | The first N row numbers are N failed rows exactly when the streak has length N or more |
| InstanceTheorems.ListedIffStreak | internal/storage/workflow_instances.go:214-238 | A schedule is listed exactly when it has a terminated instance and its streak reaches a threshold of one or more; its one row is its latest terminated instance |
| InstanceTheorems.FailedExecutionsAreListedIff | internal/storage/workflow_instances.go:214-238 | The last N instances count as failed exactly when the last N terminated ones all failed and none of the last N instances is running |
| InstanceTheorems.RunningInstanceEndsTheStreak | internal/storage/workflow_instances.go:225-236 | A running newest instance takes its schedule off the list for every threshold |
| InstanceTheorems.RunKeepsRows | internal/storage/workflow_instances.go:36-60 | Rows keep their key and creation time in every run |
| InstanceTheorems.StartIsIdempotent | internal/storage/workflow_instances.go:36-45 | A start delivered again, whatever happened since, changes nothing |
| InstanceTheorems.StartOutcome | internal/storage/workflow_instances.go:36-45 | A new instance of an existing schedule is stored as given, a stored one stays, a missing schedule aborts |
| InstanceTheorems.UpdateOutcome | internal/storage/workflow_instances.go:47-60 | Update time, termination, its time and error are those of the update, the creation time stays; other rows stay and an unknown key changes nothing |
| InstanceTheorems.LastUpdateIsShown | internal/storage/workflow_instances.go:36-60 | Over every run a row shows the last update of its key since its start, at the creation time of the start |
| InstanceTheorems.StartIsShown | internal/storage/workflow_instances.go:36-60 | Without an update it shows the start, whatever else happens |
| InstanceTheorems.FailuresAreListed | internal/storage/workflow_instances.go:214-238 | After any run in which the newest N instances of a schedule were started and last updated as terminated with an error, the schedule is listed at threshold N |
| ScheduleTheorems.RoundTrip | cmd/recreate_schedules.go:367-384 | Every printed identifier, with any payload, parses into exactly its parts when its capability is listed, and not at all otherwise |
| ScheduleTheorems.ParsesIffPrinted | cmd/recreate_schedules.go:367-384 | An identifier parses into parts exactly when a listed capability prints it from them |
| ScheduleTheorems.ParseIgnoresTableOrder | cmd/recreate_schedules.go:27-41 | Tables with the same entries parse alike, in whatever order |
| ScheduleTheorems.PrintingIsInjective | internal/connectors/engine/workflow/plugin_workflow.go:159-164 | For a fixed stack and connector, identifiers are equal exactly when capability and payload are |
| ScheduleTheorems.PrefixIsAmbiguous | internal/connectors/engine/workflow/plugin_workflow.go:159-164 | Two stacks and connectors whose identifiers coincide for every capability and payload |
| ScheduleTheorems.UnlistedCapabilities | cmd/recreate_schedules.go:29-41 | Exactly orders and conversions are missing from the table |
| ScheduleTheorems.FoundIsAnOccurrence | cmd/recreate_schedules.go:402-412 | Whatever the search finds belongs to a task of the type |
| ScheduleTheorems.FirstOccurrenceWins | cmd/recreate_schedules.go:402-412 | The first task of the type is found unless its next tasks are nil |
| ScheduleTheorems.SearchIsExact | cmd/recreate_schedules.go:402-412 | For a type that occurs at most once the search is exact |
| ScheduleTheorems.SearchIsFirstNext | cmd/recreate_schedules.go:402-412 | For every tree the search gives the first next tasks that are not nil among the tasks it looks at |
| ScheduleTheorems.SearchFindsFirstIff | cmd/recreate_schedules.go:402-412 | It finds the first task of the type exactly when that one has next tasks or no other candidate has |
| ScheduleTheorems.RepeatedTypeSkipsNil | cmd/recreate_schedules.go:402-412 | The tree in which the first match has no next tasks and a later one is found |
| ScheduleTheorems.SubScheduleIsRecreatedIff | cmd/recreate_schedules.go:276-344 | When a stored sub-schedule is recreated, and when the result is the schedule the engine created from its payload, an account's or not |
| ScheduleTheorems.SubScheduleOfSingleTask | cmd/recreate_schedules.go:276-344 | For a type that occurs once in the tree it is exactly when its type is listed, it was started from what is now rebuilt from the account of the same reference, and the task is not a named FETCH_OTHERS |
| ScheduleTheorems.RootScheduleIsSkipped | cmd/recreate_schedules.go:283-286 | Stored root schedules are left to the first phase |
| ScheduleTheorems.CertainInEveryOrderIff | cmd/recreate_schedules.go:230-245 | What is stored under a missing id is certain, in whatever order the goroutines finish, exactly when all creations with it agree |
| ScheduleTheorems.RootIsRecreatedInEveryOrderIff | cmd/recreate_schedules.go:207-246 | A missing root schedule is recreated as the engine created it, in every order, exactly when its type is known and all periodic root tasks of the type give that schedule |
| ScheduleTheorems.RootScheduleIsRecreated | cmd/recreate_schedules.go:207-246 | In particular for a type that is periodic once at the root |
| ScheduleTheorems.FirstCreationWins | cmd/recreate_schedules.go:517-528 | Existing schedules stay; under a missing id the first creation with it is stored |
| ScheduleTheorems.SameTypeRootsCollide | cmd/recreate_schedules.go:227-228 | When the first periodic task of a type comes first, a later one is scheduled exactly if it gives the same schedule |
| ScheduleTheorems.RecreatingIsIdempotent | cmd/recreate_schedules.go:517-528 | Creating again, any part of a phase and in any order, changes nothing |
| ScheduleTheorems.RecreatingIgnoresOrder | cmd/recreate_schedules.go:276-344 | The outcome of the second phase depends on the set of stored schedules only |
| ScheduleTheorems.BothPhasesCreate | cmd/recreate_schedules.go:207-344 | After both phases without errors every periodic root task of a known type has its schedule, and so has every stored identifier, on whatever page, of a known type and a stored account |
| ScheduleTheorems.CreationsHavePeriod | cmd/recreate_schedules.go:477-515 | Every schedule runs with the configured period and a jitter of half of it, five minutes at most |
| ScheduleTheorems.PrintedForm | internal/connectors/engine/workflow/plugin_workflow.go:159-164 | The printed form: stack, connector, capability name and payload, joined by dashes |
| RecreateSchedules.Command.CreateSchedule | cmd/recreate_schedules.go:477-531 | A schedule that exists is left as it is, a missing one is created, and any other error is returned with nothing changed |
| RecreateSchedules.Command.WaitAll | cmd/recreate_schedules.go:230-245 | The goroutines of a phase finish in any order; the phase fails exactly when one of them does, and some of the others may then be missing |
| RecreateSchedules.Command.RecreateRootSchedules | cmd/recreate_schedules.go:207-246 | Creates the periodic root tasks of known types in some order, or fails with part of them |
| RecreateSchedules.Command.RecreateSubSchedules | cmd/recreate_schedules.go:248-353 | Without errors the cached walk over all pages creates what looking up every account anew over their concatenation would, in whatever order |
| RecreateSchedules.Command.RecreateConnectorSchedules | cmd/recreate_schedules.go:169-205 | Nothing without a task tree, an error for an unreadable configuration, half an hour for a missing period, and the second phase only after a first one without errors; every schedule has the period, half an hour for a missing one, and half of it, five minutes at most, as jitter |

## Left out

- Isolation levels and row locks: each transaction is one atomic step, and the `FOR UPDATE` of compare-and-append is taken as serialising.
- Deletes of payments and adjustments, cascades and connector uninstall: they are not steps of the runs; safety of the outbox is for runs without them.
- Foreign keys to connectors and users: every row is assumed to name existing ones.
- The deprecated direct sending is a step that records any id at any time; what it publishes is not part of the model.
- Idempotency keys are abstract functions of what the source hashes; where a proof needs them nonempty or injective it says so.
- JSON payloads, event types, entity ids, raw data, the metadata of other entities than connections, and encryption: plain copying or library behaviour. Of an outbox event the id, creation time, status and retry count are kept.
- The clock is read once per call instead of once per event.
- RecreateSchedules.Command.RecreateSubSchedules: is given the pages of stored schedules; an error while listing them, and goroutines that outlive it, are left out.
- A limit of a poll below one is read as no limit, as the library does; its code is not part of this model.
- Rows of the three DO UPDATE statements keep only the id and the column the statement sets: the insert branch is never taken, which the preconditions of the methods state.
- Pools.AccountsOf: membership is read back in insertion order, for which the source states no order.
- Instances.RowNumber: is the row number for distinct creation times; ties, which the query breaks arbitrarily, are excluded by the lemmas' hypotheses.
- Order and pages of BalancesList, PaymentsList beyond the status, the other listings and the query builders: selections without further state.
- Accounts, orders, conversions, tasks, bank accounts and webhooks: they repeat the upsert-with-outbox pattern in easier form.
