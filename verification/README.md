# A model of the notification pipeline

This project models how the household inventory backend turns expiring items and account requests into
notifications, and proves what its tables and queues keep under every interleaving.

The pipeline: a job registers expiry alerts and publishes them through a transactional outbox; a broker carries
them to workers; a worker ingests each event into delivery rows, claims rows under a 120 second lease, sends,
and finalizes; sweepers retry what failed or went stale. The main parts are modelled twice. Once as the code is
written: classes whose methods update a table, with the statement's new state in their contracts. Once as a protocol:
interleaved steps of any number of claimants, with crashes, under a clock that never goes back. Lemmas tie the
two together: the protocol's steps are the methods' statements, and whole calls of the consumer, the two sweepers,
the publisher and the ingest are runs of the protocols, also with others acting in between.

| file | what it holds |
|---|---|
| `Prelude`, `Selection`, `Sums` | time, the `ORDER BY ... LIMIT ... SKIP LOCKED` selection, sums over maps |
| `Backoff` | the retry delay |
| `Deliveries`, `DeliveryResults` | the delivery table, its statements, and the results a send hands to finalize |
| `LeaseProtocol`, `DeliveryCalls` | the lease as a protocol; the worker's calls as runs of it |
| `Outbox`, `OutboxProtocol` | the outbox table, its sweeper, its immediate publisher |
| `Retry`, `Consumer` | a message and its headers over retries; the queues and the message handler |
| `Sweep`, `SweepDrain` | the delivery sweeper; how deliveries run out of attempts, in every interleaving |
| `ExpiryBatches`, `ExpiryCapacity` | batches of the expiry job, and how many alerts a run can finish |
| `ExpiryJob`, `ExpiryRegistration` | the batch loop of the expiry job, and the registration before it |
| `ExpiryPublishing` | the job's publishes, and the outbox rows they leave |
| `Ingest` | events to deliveries and inbox rows |
| `EmailBody` | the HTML rendering of a text message |
| `CategoryMigration`, `ProductBackfill` | two data migrations |
| `Pagination`, `Accounts` | page links; single-use links of accounts |

Time is an unbounded integer of microseconds. Rows are values in a map that the class methods reassign, one
committed statement or transaction at a time; row locks of other open transactions are a parameter (`locked`).
What other workers commit between a call's claim and its finalize is a parameter too (`meanwhile`): a claimed row
that was taken over in between is left alone, and the contracts say so.

## Where the code and its promises differ

The model follows the code. In these places that is less than its comments or structure suggest, and the exact
extent is proved.

- The finalize fence compares worker ids only, and the consumer and the sweeper of one process share an id
  (`app/apis/notifications/worker/__main__.py` 70-75). With distinct ids of live claims at most one claim holds
  a lease; a superseded finalize gets through exactly when the new owner has the same id
  (`SupersededFinalizeExactly`), and `SharedWorkerIdBreaksTheLease` is a run that ends with two holders.
- An outbox batch whose sweeper crashes after its claim committed stays SENDING for ever (`CrashedRowsStuck`,
  `CrashIsReachable`); once everyone else is done, the SENDING rows are exactly those (`QuietRows`).
- A message body that is JSON but not an object fails before the header map exists, so the retry path itself
  raises and the message is requeued, unchanged and uncounted, for ever (`ListBodyLoops`). `DiesIffCanDie` is the
  condition under which failing messages do reach the dead-letter queue, and `DeadIff` tells when.
- Broker retries are off by default (`app/core/configs/config.py` 61). Then every retryable failure below the
  retry limit is requeued unchanged for ever; no attempt is counted (`WithoutBrokerRetriesNothingCounts`).
- A publish that raises after the broker stored the copy is followed by a requeue of the original, which doubles
  the message without any crash (`StepConserves`, `OnMessage`).
- A present but empty `x-original-routing-key` makes a retried message run under the retry-return topic
  (`EmptyOriginalDrifts`); `TopicStableIff` is the condition under which the topic is stable.
- The delivery sweeper's comment says IN_APP and PUSH rows are marked sent; the code fails them with a backoff
  until their attempts are used up, and when the send of the other rows raises it drops their results, so they
  stay SENDING until their lease runs out (`SweepEvent`). Either way they run out of attempts (`InAppExhausted`);
  a PUSH row is never SENT, whoever handles it (`PushIsNeverSent`).
- A batch of delivery rows with two rows for one target is refused by PostgreSQL and the whole ingest rolls back.
  `HandleInventoryEvent` commits exactly when no two subscriptions share a target; an exact and a wildcard
  subscription of one user do (`ExactAndWildcardCollide`), and so do two LOG subscribers (`LogSubscriptionsCollide`).
- The expiry job returns before publishing when it registered nothing new, which is exactly when every item it picks
  has its alert of the day (`RunInventoryExpiryJob`). Then alerts left over from a run that stopped between
  registering and publishing wait: `LeftoverWaits` is such a run, and `JobFinishesIff` the condition under which the
  job finishes its alerts. Its comment promises up to 50 000 alerts a run. A run finishes n fresh alerts whatever
  publishes fail if and only if cap * ceil(n / limit) <= MAX_BATCHES (`CapacityExact`): 2 000 with the shipped values
  (`ShippedCapacity`), and `OneTooMany` is a failing run for one more.
- A publish timeout in the expiry job rolls back the outbox row and its attempt together
  (`PublishExpiryEvent`). An alert counts as published even when the broker refused the message: its outbox row is
  left FAILED for the sweeper (`RefusedIsLeftForSweeper`). What the mark does promise is a row for the alert's event
  in the outbox (`PublishedHaveRows`).
- An account without a stored activation digest accepts any live link for its email and username: two links from
  before digests existed both activate it (`LegacyLinkActivates`). An activation is by the account's latest link if and
  only if the account has a digest (`ActivationLatestIff`); without such old links it always is
  (`ActivationUsesLatestLink`).
- The item list orders by `created_at` alone, which rows of one transaction share, so each page may see its own
  order of the ties. Following the links then shows every row exactly once if and only if no tie stands across the
  start of a page (`VisitsAllIffNoTie`); otherwise some row may be shown twice and another never (`TiedMissesARow`).

## Model

| member | source | states |
|---|---|---|
| Backoff.TotalBackoffClosedForm | app/apis/notifications/worker/handlers.py:88-91 | The delays after n failures in a row sum to 2^n - 1 minutes for n <= 6 and to 63 + 60(n - 6) after |
| Backoff.BackoffMonotone | app/apis/notifications/worker/sweeper.py:84-87 | A later attempt never waits less, and every wait is between 1 and 60 minutes |
| Selection.OldestExists | app/apis/notifications/worker/handlers.py:180-206 | For any total preorder and limit, a locking select has an answer |
| Selection.OldestUnique | app/apis/notifications/repository/outbox_repository.py:50-63 | Without ties in the ordering the answer is unique |
| Deliveries.DeliveryTable.ClaimDeliveriesToSend | app/apis/notifications/worker/handlers.py:172-222 | Locks the oldest claimable unlocked rows up to the limit, each with a 120 s lease, one attempt more and its new values returned once; every other row is as before |
| Deliveries.ClaimableMeans | app/apis/notifications/worker/handlers.py:180-204 | A row may be claimed exactly when it is of the event, below its cap, and pending, failed and due, or sending under a lease that ran out |
| Deliveries.OnlyEligibleRowsAreClaimed | app/apis/notifications/worker/handlers.py:180-206 | A claim takes at most limit rows, none locked, each pending, due after a failure or stale, and below its attempt cap; what it leaves is not older |
| Deliveries.SendClaimedDeliveries | app/apis/notifications/worker/handlers.py:323-398 | Result i is what the sender of delivery i made of it: sent, failed with a backoff, or failed for good without a sender |
| Deliveries.BuildFailureResults | app/apis/notifications/worker/handlers.py:453-478 | Every claimed delivery fails with the backoff of its own attempt, from its own reading of the clock |
| Deliveries.OneResultPerClaim | app/apis/notifications/worker/handlers.py:353-398 | Sent or failed as a whole, a batch yields one result per claimed delivery, in order |
| Deliveries.DeliveryTable.FinalizeDeliveryResults | app/apis/notifications/worker/handlers.py:401-450 | Row by row: the last result of a row goes to it if the worker still holds it, and clears its lock; every other column and row is kept; counts exactly the rows written, spends no attempt |
| Deliveries.BulkFinalizeIsFold | app/apis/notifications/worker/handlers.py:413-447 | For distinct ids the one bulk CASE update equals guarded single-row updates one after another |
| Deliveries.FinalizeOrderIrrelevant | app/apis/notifications/worker/handlers.py:413-447 | ... in any order |
| Deliveries.DuplicateResultsDisagree | app/apis/notifications/worker/handlers.py:411-411 | Two results for one row do differ: the bulk update keeps the last, single updates the first |
| Deliveries.ClaimSpendsBudget | app/apis/notifications/worker/handlers.py:207-217 | A claim lowers the table's remaining attempts by exactly the rows it took |
| Deliveries.FinalizeKeepsBudget | app/apis/notifications/worker/handlers.py:432-447 | A finalize leaves them alone |
| LeaseProtocol.ClaimStepIsStatement | app/apis/notifications/worker/handlers.py:207-219 | The protocol's claim step is the claim statement of the table |
| LeaseProtocol.FinalizeStepIsStatement | app/apis/notifications/worker/handlers.py:432-447 | The protocol's finalize step is the bulk update |
| DeliveryResults.ResultsCoverClaims | app/apis/notifications/worker/consumer.py:316-329 | The results handed to finalize are exactly one per claimed delivery, in order: its own |
| DeliveryResults.FinalizeSettles | app/apis/notifications/worker/consumer.py:331-336 | Finalizing them gives each claimed row still held its own result, and leaves rows taken over meanwhile and all others alone |
| DeliveryResults.HeldAreReleased | app/apis/notifications/worker/consumer.py:331-336 | So every claimed row still held ends unlocked with what its send made of it: SENT, FAILED with the error and the backoff of its attempt, or FAILED for good on a channel other than EMAIL, LOG and IN_APP; any other is kept |
| LeaseProtocol.RunKeepsInv | app/apis/notifications/worker/handlers.py:172-450 | In every interleaving, whatever the worker ids: lock columns exactly while SENDING, held by the last claim, attempts equal claims, PENDING means never claimed, SENT means some send returned, and no claim of the history is lost or altered |
| LeaseProtocol.SentIsAbsorbing | app/apis/notifications/worker/handlers.py:184-198 | Once SENT no later claim, send, finalize or crash changes a column of the row |
| LeaseProtocol.AttemptBudget | app/apis/notifications/worker/handlers.py:183-217 | After any run of calls, each sending a claimed delivery at most once (see DeliveryCalls.CallIsRun): sender calls <= attempt_count = claims made <= max_attempts |
| LeaseProtocol.AttemptsConserved | app/apis/notifications/worker/handlers.py:183-217 | Over a run, attempts granted by new rows = attempts claimed + attempts left |
| LeaseProtocol.ClaimsBounded | app/apis/notifications/worker/handlers.py:183-217 | No run claims more often than the attempts its rows were given |
| LeaseProtocol.RunKeepsFence | app/apis/notifications/worker/handlers.py:172-450 | With distinct ids of live claims, every run keeps the fence: claims of a row are spaced, and no two live ones share an id |
| LeaseProtocol.AtMostOneLease | app/apis/notifications/worker/handlers.py:191-217 | ... and after it at most one claim of a delivery holds an unexpired lease |
| LeaseProtocol.ClaimsSpaced | app/apis/notifications/worker/handlers.py:51-51 | Successive claims of a delivery with a sender are more than the lease apart, or the failed attempt's backoff apart |
| LeaseProtocol.FinalizeFenced | app/apis/notifications/worker/handlers.py:432-447 | A finalize step changes a row exactly when it comes from the row's current claim |
| LeaseProtocol.SupersededFinalizeIsNoOp | app/apis/notifications/worker/handlers.py:432-436 | A finalize from a superseded claim leaves the row exactly as it was |
| LeaseProtocol.CurrentFinalizeLands | app/apis/notifications/worker/handlers.py:432-447 | The current claim's finalize always lands, even after its lease ran out |
| LeaseProtocol.SupersededFinalizeExactly | app/apis/notifications/worker/handlers.py:435-436 | With any ids, a superseded finalize gets through if and only if the row is SENDING under the same id |
| LeaseProtocol.SharedWorkerIdBreaksTheLease | app/apis/notifications/worker/__main__.py:70-75 | A run of a shared id after which two claims hold unexpired leases on one delivery |
| DeliveryCalls.CallIsRun | app/apis/notifications/worker/handlers.py:172-450 | A claim, others acting, one send per delivery sent, others acting, a finalize: a run of the protocol whose guards all hold, ending with the finalize statement's table and no open claim of the call; it sends only what the call or the others send |
| DeliveryCalls.ConsumerCallIsRun | app/apis/notifications/worker/consumer.py:292-336 | The handling of a message is such a run, and leaves exactly the table of NotificationWorker.Process |
| DeliveryCalls.SweepCallIsRun | app/apis/notifications/worker/sweeper.py:187-277 | The sweep of an event is such a run, and leaves exactly the table of SweepEvent, also when results are dropped; it sends only what the sweep or the others send |
| DeliveryCalls.UpsertIsRun | app/apis/notifications/services/ingest.py:111-121 | The upsert of an event's deliveries is a sequence of the protocol's inserts |
| DeliveryCalls.SentSurvivesIngest | app/apis/notifications/services/ingest.py:112-121 | Once SENT, a delivery stays as it is through any run and any later ingest |
| Outbox.ClaimIsUniquePrefix | app/apis/notifications/repository/outbox_repository.py:50-63 | The claim has exactly one answer: at most limit eligible unlocked rows, oldest first by (created_at, id) |
| Outbox.ClaimableMeans | app/apis/notifications/repository/outbox_repository.py:50-58 | A row may be claimed exactly when it is pending or failed, below the cap, and its retry time is missing or has come |
| Outbox.OutboxTable.ClaimForSend | app/apis/notifications/repository/outbox_repository.py:47-79 | Moves those rows to SENDING with one attempt more, and no other |
| Outbox.OutboxTable.FinalizeResults | app/apis/notifications/repository/outbox_repository.py:81-113 | Row by row: a row with a result has its status, error and retry time, whatever it held, and keeps event, age and attempts; no other row changes, comes or goes |
| Outbox.OutboxTable.Ensure | app/apis/notifications/repository/outbox_repository.py:115-143 | An event ends up with one row; an existing one is kept as it is |
| Outbox.OutboxTable.ClaimOne | app/apis/notifications/repository/outbox_repository.py:145-167 | Claims an eligible row and returns its attempt, or changes nothing |
| Outbox.OutboxTable.Update | app/apis/notifications/repository/outbox_repository.py:180-198 | The same for one row; an unknown id changes nothing |
| Outbox.PublishAll | app/apis/notifications/worker/sweeper.py:118-154 | Exactly one result per claimed row, and the count of accepted publishes |
| Outbox.OutboxTable.SweepOutboxOnce | app/apis/notifications/worker/sweeper.py:90-163 | The whole new table of a sweep: claimed rows have one attempt more and are SENT or FAILED with the backoff as the broker answered, others are untouched; the count is exact; attempts left fall by the rows claimed |
| Outbox.OutboxTable.PublishExpiryEvent | app/apis/inventory/services/expiry_service.py:102-286 | All or nothing, column by column: one attempt on the event's row, inserted if missing, SENT or FAILED for a minute, or after a timeout the table as it was |
| Outbox.ImmediateFacts | app/apis/inventory/services/expiry_service.py:196-286 | Such a call leaves one row for the event, with one attempt more and the broker's answer if it could be claimed; it touches no other row and no SENT or SENDING one, and commits no SENDING row |
| Outbox.ClaimSpendsBudget | app/apis/notifications/repository/outbox_repository.py:64-75 | A claim lowers the outbox's remaining attempts by exactly its rows |
| OutboxProtocol.RunKeepsInv | app/apis/notifications/repository/outbox_repository.py:47-198 | In every interleaving, with crashes, rollbacks and uncommitted inserts: batches are disjoint, published or crashed batches hold SENDING rows only, every SENDING row is in one, attempts stay within the cap and never fall, events are unique, no row is lost |
| OutboxProtocol.ImmediateCallIsRun | app/apis/inventory/services/expiry_service.py:196-286 | A publish call on an existing row, or one that inserts its row, is a claim and a commit; a timeout is a claim and a rollback that restores the state, inserted row included |
| OutboxProtocol.SweepCallIsRun | app/apis/notifications/worker/sweeper.py:99-161 | A whole outbox sweep is a run of the protocol with one publish per claimed row |
| OutboxProtocol.SendingHasOneClaimant | app/apis/notifications/repository/outbox_repository.py:50-77 | A row is SENDING exactly when a publishing or crashed claimant has it, and never two |
| OutboxProtocol.FinalizeOnlyReleases | app/apis/notifications/repository/outbox_repository.py:81-113 | The unguarded finalize only ever moves SENDING to SENT or FAILED |
| OutboxProtocol.UpdateOnlyReleases | app/apis/notifications/repository/outbox_repository.py:180-198 | The unguarded update only ever finishes the publisher's own attempt |
| OutboxProtocol.SentIsAbsorbing | app/apis/notifications/repository/outbox_repository.py:53-53 | A SENT row never changes again |
| OutboxProtocol.ConcurrentClaimsDisjoint | app/apis/notifications/repository/outbox_repository.py:58-63 | Two claims open at once share no row |
| OutboxProtocol.CrashedRowsStuck | app/apis/notifications/repository/outbox_repository.py:53-53 | The rows of a crashed sweep stay SENDING in every later state |
| OutboxProtocol.CrashIsReachable | app/apis/notifications/worker/sweeper.py:99-161 | One event and one sweep that crashes after its claim committed reach such a state |
| OutboxProtocol.QuietRows | app/apis/notifications/repository/outbox_repository.py:50-60 | With no live claimant a row is SENDING exactly when a crashed sweep has it; any other is sent, due, waiting or out of attempts |
| OutboxProtocol.RunPotential | app/apis/notifications/worker/sweeper.py:99-154 | Each publish uses up one unit of the attempts left and outstanding |
| OutboxProtocol.SweepPublishesBounded | app/apis/notifications/worker/sweeper.py:99-154 | No run of sweeps publishes more often than the attempts its rows were given |
| Retry.CopiesKeepTheMessage | app/apis/notifications/worker/consumer.py:229-269 | A retry copy or dead letter has the message's body, ids and headers, its new routing key, and a count one higher or the reason; only a finished message completes |
| Retry.CopiesHeaderByHeader | app/apis/notifications/worker/consumer.py:229-269 | Header by header: a dead letter has the message's own and its reason, a retry copy the merged ones and its new count; both know the original routing key |
| Retry.MergedHeaderByHeader | app/apis/notifications/worker/consumer.py:276-289 | Each merged header comes from the message if it has it, else from its ids, else from the envelope; the original routing key is always there |
| Retry.TopicMeans | app/apis/notifications/worker/consumer.py:287-288 | A message runs under its original topic if that is known and not empty, else under its routing key |
| Retry.HandledMeasure | app/apis/notifications/worker/consumer.py:344-406 | A failed handling whose copy is published lowers max_retries + 1 - count by one or ends the message; otherwise nothing changes; the body never does; whatever the broker stamps beside the worker's own two headers |
| Retry.RetryTermination | app/apis/notifications/worker/consumer.py:361-406 | A failing message is handled at most max_retries + 1 times, plus once per failed publish, before it rests in the DLQ |
| Retry.DeadIff | app/apis/notifications/worker/consumer.py:344-411 | The exact life of a failing message, for any failures of either kind and any publishes: it is in the DLQ if and only if a publish succeeded and its body cannot be processed, its count was used up, or its envelope failed for good or came back as often as the broker may |
| Retry.FreshLife | app/apis/notifications/worker/consumer.py:361-406 | A fresh message that fails for passing reasons is in the DLQ exactly from its handling number max_retries + 1 on, not counting failed publishes |
| Retry.CountMeans | app/apis/notifications/worker/consumer.py:80-85 | No count, a null or a text int() rejects counts as zero; otherwise the number read |
| Retry.DiesIffCanDie | app/apis/notifications/worker/consumer.py:344-411 | The exact condition on arrival under which a message that keeps failing, for a passing or a permanent reason, reaches the DLQ at all |
| Retry.StuckForever | app/apis/notifications/worker/consumer.py:381-411 | Otherwise any number of failures leaves it waiting, unchanged |
| Retry.WithoutBrokerRetriesNothingCounts | app/apis/notifications/worker/consumer.py:408-412 | With broker retries off, every retryable failure below the limit is such a loop |
| Retry.ListBodyLoops | app/apis/notifications/worker/consumer.py:281-289 | With broker retries on or off, the body `[1]` loops |
| Retry.CycleKeepsHeaders | app/apis/notifications/worker/consumer.py:276-289 | Merging the headers of the copy that returns gives the headers it was copied with, the count one higher and the broker's stamps, whatever they are |
| Retry.CyclesCount | app/apis/notifications/worker/consumer.py:383-399 | Every cycle counts once and returns the message under the retry-return topic |
| Retry.CyclesKeepHeaders | app/apis/notifications/worker/consumer.py:383-399 | After any number of cycles the merged headers are the first ones with the count risen by one each and all stamps, the latest of each kind |
| Retry.TopicStableIff | app/apis/notifications/brokers.py:104-118 | After any cycles a message runs under its original topic if and only if the merged original key is not empty or that topic is the retry-return one |
| Retry.TopicNeverDrifts | app/apis/notifications/worker/consumer.py:287-289 | So it does when the header is absent with a routing key, or not empty |
| Retry.EmptyOriginalDrifts | app/apis/notifications/worker/consumer.py:288-288 | A concrete message with an empty header that does drift |
| Consumer.StepConserves | app/apis/notifications/worker/consumer.py:344-412 | No step loses a message or changes a body; only a crash between publish and ack and a publish that raises although the copy was stored add a copy |
| Consumer.RunConserves | app/apis/notifications/worker/consumer.py:229-412 | Over a run, every produced body is in exactly one of main queue, in flight, retry queue, DLQ or done, plus exactly the copies crashes and lost confirms doubled |
| Consumer.CalmRunConserves | app/apis/notifications/worker/consumer.py:229-412 | A run without crashes and lost confirms holds exactly what was produced |
| Consumer.NotificationWorker.Process | app/apis/notifications/worker/consumer.py:281-342 | How the handling ends for every body and every step that raises, with that exception's kind; and the whole new table with others acting between claim and finalize: each claimed row still held gets its own result; nothing is finalized exactly when nothing was claimed or the finalize raised; a failed prepare changes nothing |
| Consumer.NotificationWorker.OnMessage | app/apis/notifications/worker/consumer.py:271-412 | Decided from the outcome alone: a permanent failure or a used-up count puts one dead letter in the DLQ whatever the settings; a passing failure puts one copy in the retry queue if broker retries are on and headers are known; any other, or a copy whose publish raised, puts the original first in main; only success is done. These are the protocol's steps, and lose no body |
| Consumer.StepsRoute | app/apis/notifications/worker/consumer.py:344-412 | The protocol's ack, publish-then-ack and requeue route a message so |
| Consumer.PossibleIsReached | app/apis/notifications/worker/consumer.py:281-342 | The outcomes the queue protocol allows for a body are exactly those a handling can end with |
| Sweep.FetchRetryEventIds | app/apis/notifications/worker/sweeper.py:55-81 | Ascending, each once, up to the limit: every fetched event has a row below its cap that failed and is due or whose lease ran out; an event with such a row is missing only behind a full fetch |
| Sweep.FetchFacts | app/apis/notifications/worker/sweeper.py:58-81 | That holds of every answer of the fetch statement |
| Sweep.SetApart | app/apis/notifications/worker/sweeper.py:233-250 | IN_APP and PUSH deliveries, and only they, get a failure result without a send; both lists keep the claimed order |
| Sweep.SweepResultsById | app/apis/notifications/worker/sweeper.py:252-271 | Each claimed delivery gets exactly its own result: its sender's, the skip, or none when it was set apart and the send of the others raised |
| Sweep.FinalizeSweeps | app/apis/notifications/worker/sweeper.py:273-277 | Row by row, the sweep's finalize gives each claimed row still held that result and leaves every other row alone |
| Sweep.SweptColumns | app/apis/notifications/worker/sweeper.py:230-277 | Column by column: each claimed row still held ends unlocked, FAILED with its backoff on IN_APP and PUSH, else with what its send made of it; IN_APP and PUSH rows are left as they are exactly when the send of the others raised |
| Sweep.SweepEvent | app/apis/notifications/worker/sweeper.py:187-282 | The whole new table of one event's claim, send and finalize, column by column, with others acting in between; each claimed row used one attempt |
| Sweep.SweepOnce | app/apis/notifications/worker/sweeper.py:166-284 | The whole new table: each fetched event's claim is worked on, every other row is untouched; each row worked on, and nothing else, lowers the attempts left by one; and every failed and due or stale row of a fetched, known event, unlocked and with room, has used one attempt |
| Sweep.OverdueIsWorked | app/apis/notifications/worker/sweeper.py:187-205 | No overdue work of a swept event is passed over |
| SweepDrain.AttemptsAreClaims | app/apis/notifications/worker/handlers.py:207-217 | In every interleaving a row's attempts rise by exactly the claims of it, up to its cap |
| SweepDrain.VisitedIsClaimed | app/apis/notifications/worker/handlers.py:180-206 | A claim of its event past its retry time or stale lease, with room and no lock, takes a row that is unsent and has attempts left |
| SweepDrain.SentOrExhausted | app/apis/notifications/worker/handlers.py:183-198 | Whatever else happens, after as many such claims as it has attempts left a delivery is SENT or out of attempts, and nothing claims it again |
| SweepDrain.InAppDrains | app/apis/notifications/worker/sweeper.py:230-277 | In every interleaving of sweeps and others, also when a lease runs out during a sweep's sends, an unsent row that nobody sends is never SENT and is claimed exactly as often as it uses an attempt |
| SweepDrain.InAppExhausted | app/apis/notifications/worker/sweeper.py:230-277 | After as many such claims as it has attempts left it is out of attempts, having been claimed exactly that often, and nothing claims it again |
| SweepDrain.PushIsNeverSent | app/apis/notifications/worker/handlers.py:353-398 | After any run from an empty table no PUSH delivery is SENT, as no worker has a sender for it |
| SweepDrain.TimeComesAgain | app/apis/notifications/worker/handlers.py:88-91 | After any run, an hour later every row's retry time has come and its lease has run out |
| SweepDrain.SweepSendsNoInApp | app/apis/notifications/worker/sweeper.py:230-277 | The sweep of an event, with others acting in between, is a run of that kind: it leaves SweepEvent's table and sends no IN_APP or PUSH row unless the others do |
| ExpiryJob.AlertTable.MarkAlertsPublished | app/apis/inventory/repository.py:192-213 | Marks the unpublished alerts among the ids, counts exactly them, and touches no published one |
| ExpiryJob.AlertTable.MarkAlertsFailed | app/apis/inventory/repository.py:215-236 | Adds an attempt to the unpublished ones, counts exactly them, and touches no published one |
| ExpiryBatches.FetchSize | app/apis/inventory/repository.py:166-189 | A fetch is full or takes everything eligible, and what it leaves comes later by (alert_date, id) |
| ExpiryBatches.FetchIsUnique | app/apis/inventory/repository.py:181-189 | The fetch has exactly one answer |
| ExpiryBatches.BatchLowersPotential | app/jobs/inventory_expiry_job.py:111-167 | A batch lowers the attempts left by at least its size, whatever fails, and makes nothing eligible |
| ExpiryBatches.EmptyFetchIsLast | app/jobs/inventory_expiry_job.py:122-123 | After an empty fetch no later batch would have found anything |
| ExpiryBatches.PublishedWereAccepted | app/jobs/inventory_expiry_job.py:104-106 | An alert is published only by an accepted publish of one of the batches, at that batch's time |
| ExpiryCapacity.CapacitySuffices | app/jobs/inventory_expiry_job.py:23-23 | With cap * ceil(n / limit) <= MAX_BATCHES a run finishes every alert, whatever publishes fail and however often they were tried before |
| ExpiryCapacity.CapacityIsNeeded | app/jobs/inventory_expiry_job.py:171-176 | Beyond that, for fresh alerts, the run in which every publish fails does not |
| ExpiryCapacity.CapacityExact | app/jobs/inventory_expiry_job.py:23-23 | Both: a run finishes fresh alerts under every pattern of failures if and only if cap * ceil(n / limit) <= MAX_BATCHES |
| ExpiryCapacity.ShippedCapacity | app/jobs/inventory_expiry_job.py:23-23 | With the shipped settings a run finishes fresh alerts under every pattern of failures if and only if they are at most 2 000 |
| ExpiryCapacity.SimpleBound | app/jobs/inventory_expiry_job.py:23-23 | cap * n <= limit * (MAX_BATCHES - cap) is enough for that |
| ExpiryJob.AlertTable.PublishBatch | app/jobs/inventory_expiry_job.py:111-167 | One turn of the loop leaves the table of one batch: exactly the fetched alerts whose publish was accepted become published; it stops exactly on an empty fetch |
| ExpiryJob.AlertTable.PublishAndMark | app/jobs/inventory_expiry_job.py:71-177 | Leaves the table of a hundred batches; within capacity every alert ends published or at the cap; the count is exactly the newly published alerts, each with an accepted publish; at most limit * MAX_BATCHES attempts |
| ExpiryCapacity.OneTooMany | app/jobs/inventory_expiry_job.py:171-176 | limit * (MAX_BATCHES / cap) + 1 fresh alerts and a run in which every publish is refused, which leaves one unfinished |
| ExpiryRegistration.PickFacts | app/apis/inventory/repository.py:97-124 | A registration picks items of its date range, up to the limit; any other item of the range is left only when the limit is reached, and then every picked one expires earlier or on the same day from an older row |
| ExpiryRegistration.InsertFacts | app/apis/inventory/repository.py:128-150 | Every picked item ends with its one alert of the day; old alerts are kept; nothing else appears |
| ExpiryRegistration.InsertAgainIsNoOp | app/apis/inventory/repository.py:138-143 | A second registration of the day inserts nothing |
| ExpiryRegistration.RegisterExpiryAlerts | app/apis/inventory/repository.py:88-150 | Returns exactly the ids of the alerts that are new |
| ExpiryRegistration.RunInventoryExpiryJob | app/jobs/inventory_expiry_job.py:25-180 | Registers both kinds; nothing is new exactly when every picked item had its alert of the day; then the table is as before, otherwise it is the one that publishing both kinds leaves, each brought to an end within capacity |
| ExpiryRegistration.PublishBoth | app/jobs/inventory_expiry_job.py:179-180 | Leaves the table of the batches of both kinds, one after the other, each brought to an end within capacity |
| ExpiryRegistration.BothFinish | app/jobs/inventory_expiry_job.py:179-180 | Publishing one kind does not cost the other its completeness: within capacity each kind is brought to an end |
| ExpiryRegistration.NewUnlessAlerted | app/jobs/inventory_expiry_job.py:41-67 | The registration of both kinds adds nothing if and only if every picked item has its alert of the day |
| ExpiryRegistration.JobFinishesIff | app/jobs/inventory_expiry_job.py:65-67 | Within capacity a run finishes the alerts of a kind if and only if something new was registered or they were finished before |
| ExpiryRegistration.RerunRegistersNothing | app/jobs/inventory_expiry_job.py:65-67 | A rerun of the day that picks the same items registers nothing, whatever ids it draws |
| ExpiryRegistration.LeftoverWaits | app/jobs/inventory_expiry_job.py:65-67 | An item whose alert was registered by a run that stopped there: the rerun of the day leaves it unpublished |
| ExpiryPublishing.PublishOne | app/jobs/inventory_expiry_job.py:77-103 | A publish counts unless the call raised; what publish_expiry_event made of the outbox |
| ExpiryPublishing.PublishedHaveRows | app/jobs/inventory_expiry_job.py:71-177 | An alert newly marked published had a publish that returned in one of the batches, at that batch's time, and the outbox ends with a row for its event unless the item had lost its expiry date; with sweepers and other publishers at work |
| ExpiryPublishing.ProtocolRunsKeepEvents | app/apis/notifications/repository/outbox_repository.py:47-198 | Whatever they do, crashes included, is such work: every run of the outbox protocol keeps every event's row |
| ExpiryPublishing.RefusedIsLeftForSweeper | app/apis/inventory/services/expiry_service.py:261-277 | A refused publish counts too: its row is FAILED, and from a minute later on claimable exactly while attempts are left; only a timeout does not count, and leaves nothing |
| Ingest.ResolveRecipient | app/apis/notifications/services/ingest.py:157-176 | The exact address per channel: the override first, then the account's; no address, no delivery |
| Ingest.MatchesMeans | app/apis/notifications/repository/subscription_repository.py:80-85 | A subscription is for an event's topic if it names it, or the topic without its last segment and an asterisk, or is `*` and the topic has no dot |
| Ingest.TargetMeans | app/apis/notifications/services/ingest.py:80-102 | It yields a target exactly when it is for the topic, its user is known and has that address on its channel |
| Ingest.UpsertFacts | app/apis/notifications/services/ingest.py:111-121 | One delivery per target; existing ones keep every column; new ones are pending, untried and unlocked, with five attempts |
| Ingest.UpsertAgainIsNoOp | app/apis/notifications/services/ingest.py:111-121 | Upserting the same targets again changes nothing |
| Ingest.HandleEstablishes | app/apis/notifications/services/ingest.py:51-121 | After an event is handled it has its row and a delivery per target; an existing event row keeps its first content |
| Ingest.RedeliveryIsNoOp | app/apis/notifications/services/ingest.py:60-121 | Whatever workers did in between, handling the event again changes no event row, status or attempt count |
| Ingest.UpsertDelivers | app/apis/notifications/services/ingest.py:73-121 | The upsert of an event's subscriptions serves all of them, each reached target with one delivery, and nobody else |
| Ingest.StatementsAreWork | app/apis/notifications/worker/handlers.py:207-217 | Claims and finalizes are such work |
| Ingest.DistinctIffNoOverlap | app/apis/notifications/models.py:147-155 | The batch has no duplicate target if and only if no two subscriptions yield the same one |
| Ingest.ExactAndWildcardCollide | app/apis/notifications/repository/subscription_repository.py:80-85 | One user's exact and wildcard subscription of a channel collide, in either order |
| Ingest.LogSubscriptionsCollide | app/apis/notifications/services/ingest.py:170-171 | Two LOG subscriptions collide |
| Ingest.NotificationStore.HandleInventoryEvent | app/apis/notifications/services/ingest.py:38-126 | Commits exactly when no two subscriptions reach one target; then every known user with an address who is subscribed to the topic, or to its parent with an asterisk, has one delivery, and every new delivery is an untried one of such a subscription; otherwise rolls back everything |
| Ingest.NotificationStore.HandleAccountEmailEvent | app/apis/notifications/services/ingest.py:128-155 | Fails for an unknown user; else the whole new state: the event recorded once, and one mail only while the account still needs it |
| Ingest.NotificationStore.SendInApp | app/apis/notifications/worker/channels.py:146-166 | At most one inbox row per event and user; the stored id is that row's; an existing row is kept |
| EmailBody.SplitFacts | app/apis/notifications/worker/channels.py:208-208 | The parts join to the message and alternate between text without any URL and whole URLs |
| EmailBody.UrlMeans | app/apis/notifications/worker/channels.py:208-208 | A URL is http:// or https://, more behind it, and no white space or angle bracket |
| EmailBody.SplitScans | app/apis/notifications/worker/channels.py:208-208 | The split scans the message as the pattern does: up to the leftmost match, the longest run there, and on behind it |
| EmailBody.ScanIsSplit | app/apis/notifications/worker/channels.py:208-208 | ... and no other split does |
| EmailBody.EscapeOne | app/apis/notifications/worker/channels.py:209-216 | The five replacement passes of html.escape do not disturb one another |
| EmailBody.EscapeIsSafe | app/apis/notifications/worker/channels.py:209-216 | Escaped text holds no bracket or quote, and newlines only where the text did |
| EmailBody.UnescapeEscape | app/apis/notifications/worker/channels.py:209-216 | Unescaping gives the text back |
| EmailBody.StripRendered | app/apis/notifications/worker/channels.py:209-220 | Without tags, the rendered parts are the escaped text |
| EmailBody.LinkUnbroken | app/apis/notifications/worker/channels.py:211-219 | The line-break pass leaves every link as it was |
| EmailBody.EmailRoundTrip | app/apis/notifications/worker/channels.py:206-222 | For every message, a missing one included, the HTML body without tags is the escaped message, and unescaped it is the message |
| EmailBody.LinksAreIntact | app/apis/notifications/worker/channels.py:208-220 | The link targets read from the rendered body, decoded, are exactly the URLs of the message, in order; none holds a quote, bracket or newline |
| CategoryMigration.Upgrade | alembic/versions/20260918_150000_drop_inventory_category_enum.py:37-87 | Every item is linked to a category of its own home named after its value; links and categories that existed are kept; names stay unique per home; it fails exactly when an unlinked item has no value |
| CategoryMigration.PairStep | alembic/versions/20260918_150000_drop_inventory_category_enum.py:48-79 | One turn of the loop links exactly the pair's items, and adds a category only if the home lacks it |
| CategoryMigration.Downgrade | alembic/versions/20260918_150000_drop_inventory_category_enum.py:137-155 | Every item gets the enum value of its category's name, or other |
| CategoryMigration.CapitalizeLowers | alembic/versions/20260918_150000_drop_inventory_category_enum.py:52-52 | The downgrade's reading undoes the upgrade's naming, for every enum value |
| CategoryMigration.CapitalizeMeans | alembic/versions/20260918_150000_drop_inventory_category_enum.py:52-52 | A category's name is the value with its first letter in upper case and the others in lower case |
| CategoryMigration.EnumValueMeans | alembic/versions/20260918_150000_drop_inventory_category_enum.py:147-149 | The downgrade reads the three fixed names in any case, every other name as other |
| CategoryMigration.UpgradeThenDowngrade | alembic/versions/20260918_150000_drop_inventory_category_enum.py:37-155 | Upgrade then downgrade gives every item that was unlinked its value back |
| ProductBackfill.Upgrade | alembic/versions/20260918_160000_backfill_inventory_item_product_id.py:64-98 | Afterwards every item has a product; new products and items that had none are in bijection, with equal names; nothing else changes |
| ProductBackfill.BackfillStep | alembic/versions/20260918_160000_backfill_inventory_item_product_id.py:82-98 | One turn of the loop extends that bijection by one item |
| Pagination.NextIffRowsRemain | app/core/database/pagination.py:142-153 | There is a next link exactly when offset + limit < total |
| Pagination.FollowFacts | app/core/database/pagination.py:125-167 | Following next links from any page visits exactly the rows from its offset on |
| Pagination.FollowVisitsAll | app/apis/inventory/services/service.py:112-137 | From page 1, when every request sees one order, every row once, in that order, on ceil(total / size) pages; every page states these numbers |
| Pagination.VisitsAllIffNoTie | app/apis/inventory/repository.py:80-84 | When created_at alone orders and each request sees its own order of the ties, the links show every row exactly once, whatever those orders are, if and only if no tie stands across the start of a page |
| Pagination.TiedMissesARow | app/apis/inventory/repository.py:80-84 | For such a tie, orders under which one row is shown twice and another never |
| Pagination.PreviousUndoesNext | app/core/database/pagination.py:148-159 | The previous link of the next page leads back |
| Accounts.AccountStore.RequestPasswordReset | app/apis/users/auth_service.py:46-83 | An active account with this email, unless throttled, has the new digest for 30 minutes; nothing else changes |
| Accounts.AccountStore.ResetPassword | app/apis/users/auth_service.py:85-101 | Succeeds exactly for an active account with that digest, unexpired, sets the password and spends the link |
| Accounts.AccountStore.RegisterUser | app/apis/users/user_service.py:81-108 | Refuses a known username, ignores a known email, else adds an inactive account with a digest and a Redis entry for 30 minutes |
| Accounts.AccountStore.ResendActivation | app/apis/users/user_service.py:136-154 | Gives a new link to an inactive account with this email, unless throttled |
| Accounts.AccountStore.CreateUser | app/apis/users/user_service.py:44-79 | Succeeds exactly for a live link of an inactive account of its email and username whose digest, if it has one, is the link's and unexpired; then the account is active with the chosen password and nothing else changes |
| Accounts.AccountStore.ValidateActivationLink | app/apis/users/user_service.py:110-134 | Shows a link as usable exactly when create_user would accept it, and as used exactly when its account is active |
| Accounts.AccountStore.CleanupUsers | app/jobs/user_cleanup_job.py:17-29 | Removes and counts exactly the inactive accounts over a week old without a working link |
| Accounts.StepsAreCalls | app/apis/users/user_service.py:44-180 | Each step of a run leaves the tables that the contract of its call gives, by the same functions |
| Accounts.RunKeepsInv | app/apis/users/user_service.py:156-161 | In every run, links from before the digests included, a stored digest is the account's latest link, issued to it, and a reset digest is unspent |
| Accounts.ResetUsesLatestLink | app/apis/users/auth_service.py:58-101 | After any run a reset succeeds only with the latest link of that very account, unexpired, for the first time |
| Accounts.ResetLinkIsIssued | app/apis/users/auth_service.py:58-65 | A granted request leaves the account with a pending link for 30 minutes |
| Accounts.LatestResetWorks | app/apis/users/auth_service.py:58-101 | Conversely an issued reset link works until it expires, throttled requests and refused resets of the account included, unless it is used or the account is sent another |
| Accounts.ResetTokensDistinct | app/apis/users/auth_service.py:98-100 | No token succeeds twice |
| Accounts.ActivationUsesLatestLink | app/apis/users/user_service.py:60-79 | After any run, cleanup and registering anew included, an account activates only with its latest link, if Redis held no link from before the digests |
| Accounts.ActivationLatestIff | app/apis/users/user_service.py:68-73 | With any such old links, an activation is by the latest link if and only if the account has a digest, and if and only if the link is not one of them; it sets the chosen password and the active flag and nothing else |
| Accounts.LegacyLinkActivates | app/apis/users/user_service.py:68-73 | An account without a digest and two old links, each of which activates it |
| Accounts.LinkIsIssued | app/apis/users/user_service.py:156-161 | Registering and resending leave the account with a pending link, digest and Redis entry in step |
| Accounts.LatestActivationWorks | app/apis/users/user_service.py:44-79 | Conversely an issued activation link works until it expires, through cleanups, throttled resends and attempts with other links, unless it is used or the account is sent another |
| Accounts.ForeignLinkRefused | app/apis/users/user_service.py:68-73 | After any run a link issued to one account never activates another |
| Accounts.ActivatedOnce | app/apis/users/user_service.py:66-77 | No account is activated twice |
| Accounts.CleanupSparesUsable | app/jobs/user_cleanup_job.py:20-28 | The cleanup removes no active account and none whose link still works |

## Left out

- Drivers and formats: SMTP, RabbitMQ, Redis and PostgreSQL clients, JSON and URL parsing, UUIDs, hashing, logging, metrics and the realtime push appear as parameters, fresh values or not at all.
- `updated_at` columns, the `context` of a delivery, and the payload and headers of outbox rows, which no statement's condition reads.
- Outbox statuses in another letter case, which the publisher normalises before it compares them; all writers use upper case.
- Claim and commit of deliveries are one step; rows held by other open transactions are the `locked` parameter. The outbox protocol does have the open claim, its commit and its rollback as separate steps.
- Send tasks that outlive their batch: after an exception out of the gather its other tasks may still send after the finalize; the model has all sends of a call before it.
- Settle calls that fail on the broker's side: that is the protocol's crash. A finalize that raises is modelled, and leaves rows SENDING until the lease runs out.
- SweepOnce: its progress is stated with no other writer, as one sum over the table; SweepEvent and the protocol have the interleavings.
- A broker that stamps the worker's own `x-retry-count` or `x-original-routing-key`; any other stamps may be added. `int()` of a text header is the parameter `parseInt`.
- Concurrency limits, connection retries and draining of the worker, and the sleep loops of the sweepers.
- `InAppSender`: parsing of its headers and the errors it raises before the insert.
- The errors of a failed alert batch joined into one text and cut at 2000 characters: the batch's error is a parameter.
- Expiry envelopes: building topic, key, payload and headers of an expiry event; the event key is an injective function of item, type and day.
- The race in which two registrations of one username pass the first check and the unique constraint decides.
- Lower and upper case outside ASCII in the category migration; the enum's values and the round trip need only ASCII.
- Decoding of HTML entities other than the five that html.escape writes.
- Rounding of `math.ceil` over a float quotient above 2^53 rows, and rows that come, go or change between two page requests.
- Home roles and permissions, category and product editing, the admin list of homes, the password-reset duplicate and the standalone runner: single-branch logic without a property across calls.
