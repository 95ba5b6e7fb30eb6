# Verified model of the Lens backend's stateful cores

This project models nine pieces of backend logic of the repository and proves what they
promise, on all inputs and over all runs. Check it with `dafny verify dfyconfig.toml`
(Dafny 4.11).

**Alert outbox** (`AlertStore`, `AlertSystem`, `AlertDatabase`, and the theorems in
`AlertInvariant`, `AlertSteps`, `AlertHistory`, `AlertEvaluation`, `AlertRetry`,
`AlertQueue`, `AlertJobs`, `AlertSupplements`, `AlertOnce`, `AlertSummary`, `AlertLagging`,
`AlertLate`, `AlertFailed`, `AlertStale`; `AlertExamples` has small runs).
An occurrence is evaluated into events and deliveries; workers claim a delivery with a
lease and a token, send without a lock, and finalise by compare-and-set. Equal destinations
share one dedupe key, which a skipped owner hands to its oldest duplicate. Diagnoses with
deadlines hold back some deliveries and add supplements to others. `AlertStore` has one
function per transaction, `AlertSystem` the interleavings of all of them with worker-local
state, `AlertDatabase` the same transactions as methods that update tables in place. A
worker that never takes its next step is a crash; there is no assumption that clocks agree,
so every theorem holds for any time stamps.

**Trajectory log** (`RunTrace`, `RunTraceTheorems`). An at-least-once receiver with a
sequence cursor and two uniqueness keys.

**Secret masking** (`SecretMask`, `SecretMaskTheorems`, `SecretMaskAccepts`,
`SecretMaskLeaks`). Masking a configuration and merging a masked copy back, with the guard
for lists.

**Model failover** (`Failover`). A generator that may replay on another model only before
its first output.

**Smaller loops**: the document quota (`DocumentQuota`), the public activity fold
(`ActivityFold`), token totals over descendant runs (`RunTree`), round-robin re-checking
(`Reconciliation`) and the free-name search (`FreshName`).

Some promises turned out not to hold in full. The code is modelled as it is, and the
theorems say where the limit lies:

- A row that the sweep fails while its worker still holds the token can still become sent:
  `failed` is final exactly when no token is on the row (`AlertFailed.FailedIsFinalExactly`).
- A worker that has lost its row can no longer finish it, but its destination write is not
  guarded: it can still set the row's language, and nothing else
  (`AlertStale.StaleWorkerExactly`, `RelabelOnlyLanguage`).
- A destination evaluated while a skipped row holds its key stays suppressed for good, and
  only then (`AlertLate.InPlayExactly`).
- A suppressed duplicate supplement is inserted without a refresh, so a stored `sent` can
  lag behind the summary, exactly as `AlertSummary.AdvanceLagsExactly` says.
- Merging renames an incoming key to the stored spelling but judges the incoming spelling
  for sensitivity. A placeholder can then be stored as the secret; `SecretMaskLeaks` says
  for which sent and stored values that happens, under any key policy.
- The summary activity is not sticky (`ActivityFold.SummariesAgreeExactly`), and the
  descendant loop does not end on a parent cycle (`RunTree.EndsExactlyOffCycle`).

## Model

| member | source | states |
|---|---|---|
| AlertSteps.Reachable | backend/lens/alerts.py:294-381 | Every state reached by any interleaving of enqueueing, evaluation, claims, crashes, lease expiry, finalisation, promotion, diagnosis jobs, deadline releases, sweeps, operator retries and subscription deletion satisfies the outbox invariant |
| AlertSteps.StepInv | backend/lens/alerts.py:564-605 | One step of any kind keeps the invariant: key ownership, leases, diagnosis gates, and the placement of rows and supplements |
| AlertHistory.OneOwner | backend/lens/models.py:2432 | In every reachable state at most one row of a dedupe identity is pending, diagnosing, sending, sent or failed; that row holds the key, and every duplicate is suppressed and points at the current key holder |
| AlertHistory.SentOnce | backend/lens/alerts.py:343-378 | At most one row of an identity is ever sent, even when one row is looked at early in a run and the other late |
| AlertHistory.SkippedKeyIsDead | backend/lens/alerts.py:532-539 | Once a skipped row keeps its key because it had no duplicate, no row of that identity is active in any later state |
| AlertHistory.SendsBounded | backend/lens/alerts.py:572-578 | Attempts never exceed five, and claims (hence external sends) never exceed five for the first round and five per operator retry |
| AlertHistory.Absorbing | backend/lens/alerts.py:586-601 | Over any later run sent and skipped rows stay so, a failed row without a claim token stays failed until an operator retries it, and attempts never decrease between retries |
| AlertHistory.SupersededIsInert | backend/lens/alerts.py:594-602 | A worker that has lost its token stays superseded over any later run, and its finalisation then changes nothing; what it can still write is the row of StaleWorkerExactly |
| AlertHistory.LeaseEndsExactly | backend/lens/alerts.py:567-602 | A worker that holds a row is superseded by a step if and only if the step is a rival's successful claim of that row, or the worker's own effective finalisation |
| AlertStale.StaleWorkerExactly | backend/lens/alerts.py:474-475 | In any reachable state a step of a worker that has lost its row changes the store if and only if it is the unguarded destination write and its language differs from the stored one |
| AlertStale.RelabelOnlyLanguage | backend/lens/alerts.py:474-475 | That write, by any worker, sets the language of the worker's own row and touches nothing else: not status, attempts, key, token, pointer, channel or recipients, nor another row or table |
| AlertStale.StaysRouted | backend/lens/alerts.py:474-475 | Over any run every row keeps the channel, recipients and policy of the identity it was created under, and so does every worker's copy |
| AlertStale.StaleWriteWitness | backend/lens/alerts.py:474-475 | A concrete run after which a superseded worker rewrites the destination of a row already sent |
| AlertHistory.TokensComeFromClaims | backend/lens/alerts.py:574-578 | A token that appears on an existing row in one step was put there by that token's own claim |
| AlertRetry.ClaimsDueExactly | backend/lens/alerts.py:567-576 | A new worker can claim a row if and only if fewer than five attempts were made and it is pending and due, or its last claim is more than 300 seconds old |
| AlertRetry.ClaimHoldsExactly | backend/lens/alerts.py:567-580 | A claim uses one attempt, and another worker can claim the row if and only if more than 300 seconds have passed and attempts are left; other rows stay as they are |
| AlertRetry.FinishExactly | backend/lens/alerts.py:586-601 | What a finalisation leaves, in figures: delivered is sent with its time, declined is skipped, rejected is pending below five attempts and failed at five; attempts are those read, the token is gone, and the next attempt is due after 30, 60, 120, 240, 480 or 960 seconds |
| AlertRetry.RejectedRetriesExactly | backend/lens/alerts.py:591-601 | A rejected delivery can be claimed again if and only if fewer than five attempts were made, and then from 60, 120, 240 or 480 seconds later on (30 after a reset) |
| AlertRetry.OneRejection | backend/lens/alerts.py:567-601 | From a claim through the load to the rejection: one attempt more, pending below five and failed at five, with the delay of that attempt |
| AlertRetry.RejectedCanBeSent | backend/lens/alerts.py:567-601 | From any reachable state a row rejected before its fifth attempt can still become sent |
| AlertHistory.StepEffect | backend/lens/alerts.py:564-605 | What one step may do to rows that already exist: identity, event and phase never change, final statuses stand, and keys and duplicate pointers move only when the step is a skip |
| AlertHistory.RunEffect | backend/lens/alerts.py:564-605 | The same across any run, with diagnoses and workers never lost |
| AlertHistory.DiagnoseFirstGate | backend/lens/alert_diagnostics.py:54-56 | A row of a diagnose-first rule, promoted replacements included, can be claimed only when its diagnosis is in a final status |
| AlertHistory.DiagnosisOnce | backend/lens/alert_diagnostics.py:124-127 | Over any run each diagnosis is claimed at most once, is never lost, and keeps its final status |
| AlertJobs.JobMovesExactly | backend/lens/alert_diagnostics.py:123-162 | Among all steps an analysis is started only by its claim and finished only by its result, each only before the deadline, and timed out only by an advance from the deadline on; the deadline never changes |
| AlertJobs.JobExplained | backend/lens/alert_diagnostics.py:123-162 | Over any run an analysis is completed or failed only if it was claimed and then got that result, both before its deadline, and timed out only if an advance came at or after it |
| AlertJobs.NewJobsWait | backend/lens/alert_diagnostics.py:41-51 | An analysis appears only by an evaluation, unclaimed, with its deadline the rule's timeout later |
| AlertHistory.AdvanceReleases | backend/lens/alert_diagnostics.py:205-211 | After an advance at time t a waiting row still waits if and only if its diagnosis is live with a deadline after t; every other one is pending and due at t |
| AlertHistory.SupplementBased | backend/lens/alert_diagnostics.py:212-252 | Every supplement stands beside a sent base row of the same event and subscription, cleared subscriptions included, and is the only one there while the subscription lasts |
| AlertSupplements.AdvanceAddsExactly | backend/lens/alert_diagnostics.py:208-252 | An advance leaves every row that was not waiting, and adds for each original it serves one supplement with its event, subscription and destination, due at once: pending with the key and the analysis, or suppressed without if an earlier row holds the key |
| AlertSupplements.ServesFirstHundred | backend/lens/alert_diagnostics.py:212-225 | A row is served if and only if it is one of the first hundred sent base rows of notify-then-diagnose events with a completed analysis and no supplement |
| AlertSteps.AddSupplementInv | backend/lens/alert_diagnostics.py:226-252 | Serving one sent original keeps the invariant, whichever of the three get-or-create branches is taken |
| AlertSteps.PromoteInv | backend/lens/alerts.py:525-560 | Moving a skipped row's key to its oldest duplicate and re-pointing the others keeps the invariant |
| AlertSteps.RelabelInv | backend/lens/alerts.py:474-475 | The unguarded write of the destination from a worker's own copy keeps the invariant, even after the worker has lost its lease |
| AlertSteps.SweepInv | backend/lens/tasks.py:4433-4437 | Failing rows whose last lease expired keeps the invariant although the claim token stays on the row |
| AlertRetry.SweepsExactly | backend/lens/tasks.py:4433-4437 | The sweep fails exactly the rows whose lease ran out on the fifth attempt, which are those nobody can claim, and leaves every other row |
| AlertSteps.RetryInv | backend/lens/views/alerts.py:103-112 | Resetting failed rows of an event, attempts included, keeps the invariant |
| AlertRetry.RetriesExactly | backend/lens/views/alerts.py:103-112 | A retry makes exactly the failed rows of the event pending, due at once with all attempts before them, and the event pending if there are any; nothing else changes |
| AlertSteps.DropInv | backend/lens/models.py:2427-2429 | Clearing the subscription of its deliveries keeps the invariant |
| AlertRetry.DropsExactly | backend/lens/models.py:2427-2429 | Deleting a subscription clears the foreign key of exactly its own deliveries |
| AlertQueue.NobodyStranded | backend/lens/alerts.py:530-559 | After a skip no suppressed row points at the skipped one: the key is with the oldest duplicate, which is due at once, or stays if there was none |
| AlertQueue.SkipMovesUp | backend/lens/alerts.py:539-559 | A skip of the owner promotes the first duplicate and leaves every other one with exactly one row fewer in front of it |
| AlertQueue.OthersStay | backend/lens/alerts.py:525-560 | No other step changes a waiting duplicate's owner or the number of rows in front of it |
| AlertQueue.TriedInTurn | backend/lens/alerts.py:525-560 | Over any run a waiting duplicate is still suppressed if and only if its owners were skipped no more often than there were rows in front of it: nobody is lost and nobody overtaken |
| AlertOnce.EventsUnique | backend/lens/models.py:2351 | In every reachable state a rule has at most one event per source key |
| AlertOnce.EvaluatedOnce | backend/lens/alerts.py:298-331 | Evaluating an occurrence again with the same matches adds no event, delivery or diagnosis, for terminal and running occurrences |
| AlertEvaluation.AddsRow | backend/lens/alerts.py:314-380 | Evaluating an occurrence adds, for each destination of a rule it matches for the first time, one row due at once: silent if cooling down, queued behind an earlier holder of its key if there is one, else an owner that is pending or waiting for the analysis its rule asks for; and leaves every row, event and analysis that was there |
| AlertEvaluation.CoolingDownIsSilent | backend/lens/alerts.py:350-379 | A destination that is cooling down gets a suppressed row without key, pointer or analysis, and that row is suppressed after any later run |
| AlertEvaluation.EnqueuesExactly | backend/lens/alerts.py:51-59 | Writing an occurrence leaves it with the payload, to be evaluated again unless it was there with the same one, and touches nothing else |
| AlertEvaluation.EvaluatesOccurrence | backend/lens/alerts.py:298-383 | A terminal occurrence that is processed already, or one that is not there, changes nothing; any other is marked |
| AlertLate.InPlayExactly | backend/lens/alerts.py:314-379 | When "skipping never loses a destination" holds: evaluating an occurrence adds, for a destination that is not cooling down, a row that is active or queued behind an active owner if and only if no skipped row held the destination's key before the evaluation |
| AlertLate.LateDuplicateStaysSuppressed | backend/lens/alerts.py:314-379 | Where a skipped row held the key, the destination's new row is not active after the evaluation, nor after any later run |
| AlertLate.OtherwiseInPlay | backend/lens/alerts.py:314-379 | Where none did, the new row is active after the evaluation, or queued behind an active owner |
| AlertLate.LateDuplicateWitness | backend/lens/alerts.py:525-539 | A concrete run reaches a suppressed duplicate behind a skipped owner |
| AlertFailed.FailedIsFinalExactly | backend/lens/tasks.py:4433-4437 | A failed row stays failed over every later run, up to operator retries, if and only if no claim token is on it |
| AlertFailed.LateReportLands | backend/lens/alerts.py:594-602 | A worker whose token is still on the row, failed by the sweep or not, can finish it as sent |
| AlertFailed.FailedWithTokenWitness | backend/lens/tasks.py:4433-4437 | A concrete run of five crashed workers and a sweep reaches a failed row that still carries a token |
| AlertSummary.SweepAccurate | backend/lens/tasks.py:4433-4443 | The sweep's update leaves the statuses of all other events right |
| AlertSummary.SweepWrongExactly | backend/lens/tasks.py:4433-4437 | Between the sweep and its refreshes an event that was right is wrong if and only if rows of it were swept and these were all that was pending, sending or diagnosing |
| AlertSummary.SummaryExactly | backend/lens/alerts.py:411-421 | The summary in terms of the set of an event's statuses, each of the five values if and only if |
| AlertSummary.StatusIsSummary | backend/lens/alerts.py:407-422 | After any run the stored status of every event that does not await its refresh from a sweep is the summary of its deliveries, or lags by a suppressed duplicate supplement |
| AlertSummary.LaggingIsWrong | backend/lens/alerts.py:411-421 | The lagging case is really wrong (stored sent, summary partial) and a refresh repairs it |
| AlertSummary.AdvanceLagsExactly | backend/lens/alert_diagnostics.py:200-254 | An advance leaves a status wrong that was right before if and only if the event was stored as sent, one of the originals it will serve belongs to the event, and none of these is free, that is, each one's supplement key is held already or taken by an earlier original |
| AlertSummary.ServedExactly | backend/lens/alert_diagnostics.py:226-252 | Serving a batch refreshes an event if and only if a free original belongs to it, and adds a row to it if and only if any original does |
| AlertLagging.LaggingWitness | backend/lens/alert_diagnostics.py:242-254 | A concrete run from the empty system, and the advance after it, in which this happens |
| AlertDatabase.Database.EnqueueOccurrence | backend/lens/alerts.py:51-59 | In place: creates the occurrence, or replaces a different payload and reopens it |
| AlertDatabase.Database.RefreshEventStatus | backend/lens/alerts.py:410-422 | In place: collecting the status set and branching on it stores the summary of the event's rows and changes nothing else |
| AlertDatabase.Database.EvaluateRuleMatch | backend/lens/alerts.py:314-380 | In place: the loop over one rule's candidates creates the event, owners, duplicates, cooled-down rows and shared diagnoses of the specification |
| AlertDatabase.Database.Attach | backend/lens/alert_diagnostics.py:33-56 | In place: an existing analysis is shared, a new one gets its deadline, and a diagnose-first row starts waiting |
| AlertDatabase.Database.EvaluateOccurrence | backend/lens/alerts.py:294-383 | In place: a processed terminal occurrence is left alone; otherwise every match is evaluated and the occurrence marked |
| AlertDatabase.Database.ClaimDelivery | backend/lens/alerts.py:567-580 | In place: whoever wins the claim holds its token on a row that was pending or sending, has used one more of at most five attempts, and cannot lose the row to another claim within five minutes |
| AlertDatabase.Database.PromoteDuplicate | backend/lens/alerts.py:525-560 | In place: the sequence of row updates has the same result as moving the key and all pointers at once |
| AlertDatabase.Database.FinaliseDelivery | backend/lens/alerts.py:586-605 | In place: takes effect exactly when the token is still on the row; then writes the outcome, promotes after a skip and refreshes |
| AlertDatabase.Database.BeginDiagnosis | backend/lens/alert_diagnostics.py:123-127 | In place: after the call no claim of this diagnosis ever succeeds again, and a successful one leaves it running before its deadline |
| AlertDatabase.Database.CompleteDiagnosis | backend/lens/alert_diagnostics.py:151-162 | In place: after the call no other result of this diagnosis is ever accepted, and an accepted one leaves it in a final status |
| AlertDatabase.Database.Supplement | backend/lens/alert_diagnostics.py:226-252 | In place: the get-or-create of one supplement, telling whether it was created |
| AlertDatabase.Database.ServeOriginals | backend/lens/alert_diagnostics.py:226-252 | In place: serving the batch in order, collecting the events that received a supplement |
| AlertDatabase.Database.AdvanceDiagnoses | backend/lens/alert_diagnostics.py:200-254 | In place: time out, release, serve at most 100 originals and refresh the touched events |
| RunTraceTheorems.AcceptedExactly | backend/lens/run_trace.py:187-250 | A valid batch is accepted if and only if it is a run of stored events followed by the continuation of the log; the new log and both counts are given |
| RunTraceTheorems.AppendExtends | backend/lens/run_trace.py:193-250 | An accepted batch extends the log, keeps numbers 1..n and unique ids, its counts add up to its size, and the acknowledged number is within the log |
| RunTraceTheorems.LogOnlyGrows | backend/lens/run_trace.py:163-250 | Whatever batches are submitted, in any order, the log stays 1..n with unique ids and only grows by extension |
| RunTraceTheorems.HonestPrefix | backend/lens/run_trace.py:163-250 | With batches of an honest sender lost, repeated or reordered arbitrarily, the log is always a prefix of the sender's stream |
| RunTraceTheorems.SliceAccepted | backend/lens/run_trace.py:232-250 | A slice of the stream is accepted if and only if it leaves no gap, and then the log is the longer of what it was and what was sent |
| RunTraceTheorems.SplittingIsInvisible | backend/lens/run_trace.py:171-250 | Submitting two parts in turn and submitting their concatenation agree in acceptance, log and added-up counts, for every valid concatenation |
| RunTraceTheorems.ResubmitIsNoop | backend/lens/run_trace.py:206-222 | An accepted batch submitted again, after any later batches, inserts nothing, changes nothing and counts as duplicates throughout |
| RunTraceTheorems.ValidExactly | backend/lens/run_trace.py:167-183 | A batch passes validation if and only if it has 1 to 100 events with positive numbers and payloads of at most 2 MiB, at most 8 MiB in all, increasing numbers and different ids |
| RunTraceTheorems.InvalidExactly | backend/lens/run_trace.py:166-183 | Otherwise the rejection names the first check that fails |
| RunTraceTheorems.RejectedExactly | backend/lens/run_trace.py:206-247 | A valid batch is rejected for a conflict if and only if some event shares its id or number with a stored one without being stored, and for a gap if and only if none does and it does not continue the log |
| RunTraceTheorems.BytesAdd | backend/lens/run_trace.py:174 | The size of a batch is the sum of its payloads' sizes |
| RunTrace.Malformed | backend/lens/run_trace.py:170-172 | The rejection is that of the first event with a number below one or an oversized payload, and there is none exactly when every event is within its limits |
| RunTrace.Trace.AppendEvents | backend/lens/run_trace.py:163-250 | In place: the loop over duplicate count and pending events appends exactly what the specification accepts, and a rejected batch changes nothing |
| SecretMaskTheorems.MaskThenMerge | backend/lens/serializers.py:3922-3988 | For every JSON object x, merging its masked form onto x is accepted and returns exactly x, at any nesting, even if an ordinary string equals the placeholder |
| SecretMaskTheorems.VeiledCopyRestores | backend/lens/serializers.py:3936-4011 | The same for any copy of x in which some non-blank secrets are masked or blanked and the rest are left as they are |
| SecretMaskTheorems.ListGuardAllOrNothing | backend/lens/serializers.py:3969-3985 | An accepted list without key aliasing either has no placeholder and is taken as sent, or matches under masking and is the stored list; never a mixture |
| SecretMaskLeaks.CleanExactly | backend/lens/serializers.py:3936-4011 | For any key policy, an accepted merge onto a clean value leaves no placeholder under a sensitive key if and only if no masked value slips through: none has the last word on the stored sensitive key of a secret while spelled as an ordinary one, at any depth |
| SecretMaskLeaks.RepeatExactly | backend/lens/serializers.py:3936-4011 | For any key policy, merging the result again onto the same clean value changes nothing if and only if neither a masked nor a blank value slips through |
| SecretMaskLeaks.MergeLeavesNoPlaceholder | backend/lens/serializers.py:3936-4011 | When each key is sent under a spelling as sensitive as the stored one, an accepted merge leaves no placeholder and merging its result again changes nothing |
| SecretMaskLeaks.UnaliasedMergeIsClean | backend/lens/serializers.py:3936-4011 | The same for any key policy when no sent key is an alias of a differently spelled stored one |
| SecretMaskLeaks.Writers | backend/lens/serializers.py:3937-3987 | The merged dictionary holds exactly what was merged from the incoming fields with the last word on their stored keys |
| SecretMaskLeaks.CleanExactlyWhenSafe | backend/lens/serializers.py:3938-3963 | Every accepted merge onto a clean value stays clean if and only if sensitivity agrees with the spellings that share a normal form |
| SecretMaskLeaks.AliasLeak | backend/lens/serializers.py:3940-3963 | A concrete value slips through whenever an ordinary spelling is an alias of a sensitive one: the placeholder replaces the stored secret |
| SecretMask.MaskValue | backend/lens/serializers.py:3922-3933 | Filling the masked copy in loops hides exactly the non-blank secrets, at any depth, and gives the recursive masking |
| SecretMask.MaskHides | backend/lens/serializers.py:3922-3933 | The masked value has the shape and keys of the value; a sensitive key carries the mask if and only if its value is not blank, and nothing else differs, at any depth |
| SecretMaskTheorems.SameViewExactly | backend/lens/serializers.py:3922-3933 | Two values are shown alike if and only if they differ in nothing but their non-blank secrets |
| SecretMaskAccepts.RefusedExactly | backend/lens/serializers.py:3953-3983 | A merge is refused if and only if a masked value has nothing to keep or a list with placeholders was edited, at some depth, and the error names one that is there |
| SecretMaskAccepts.SpelledOutReplaces | backend/lens/serializers.py:3936-4011 | An object that spells out every secret and has no aliased key replaces whatever is stored, lists included |
| SecretMaskAccepts.ResolvesToFirst | backend/lens/serializers.py:3939-3949 | A sent key is stored under itself if it is stored, else under the first stored key with its normal form, else as a new key |
| SecretMask.MergeValues | backend/lens/serializers.py:3936-3988 | Filling the merged dictionary in a loop gives the recursive merge, with the first error stopping it |
| SecretMask.MergeEntry | backend/lens/serializers.py:3938-3987 | One incoming field: alias lookup, placeholder without a value, kept secret, nested object, guarded list, plain value |
| SecretMask.MergeList | backend/lens/serializers.py:3991-4011 | Filling the merged list in a loop gives the recursive merge of its items |
| SecretMask.MergeStops | backend/lens/serializers.py:3953-3957 | An error in a prefix of the incoming fields is the error of the whole merge |
| Failover.TrackedAttempts | backend/lens/llm_resilience.py:138-210 | The attempt loop refines "take the first attempt that settles, else the last one": chunks and result of that attempt alone, one callback per failed attempt, each model called once in order |
| Failover.MovesOnExactly | backend/lens/llm_resilience.py:182-210 | The next model is called if and only if the attempt raised a retryable error before any chunk was emitted, or was a stream that emitted nothing and ended in a reply without tool calls and with finish reason none or stop |
| Failover.FallbackModelRefs | backend/lens/llm_resilience.py:60-118 | Filling the candidate list in loops gives the selected fallbacks |
| Failover.FallbacksSound | backend/lens/llm_resilience.py:91-118 | At most three fallbacks, distinct, never the primary; a model is chosen if and only if it is among the first three entries, not the primary and available; configured order is kept |
| Failover.FailoverGuarantees | backend/lens/llm_resilience.py:138-210 | At most four pairwise distinct models are called, all output comes from the last, earlier ones yielded nothing, and the callback sees attempts 1, 2, 3 without gaps, with the code of an empty stream or of a failure |
| DocumentQuota.QuotaHolds | backend/lens/document_attachments.py:446-456 | Over any history of stores, failed stores, deletions, look-ups, bindings and clock steps a user has at most eight live documents, each holding a slot of its own that outlives it |
| DocumentQuota.ReleaseIsOwn | backend/lens/document_attachments.py:137-143 | A failed store or a deletion releases no slot held by another live document and leaves that document live |
| DocumentQuota.RefusedWhenFull | backend/lens/document_attachments.py:98-100 | A store is refused if and only if all eight slots of the user are reserved |
| DocumentQuota.StepInv | backend/lens/document_attachments.py:90-144 | Every step keeps it that each unexpired document holds its own slot for at least its own lifetime |
| DocumentQuota.DocumentCache.ReserveUserQuota | backend/lens/document_attachments.py:446-456 | In place: the search takes the lowest free or expired slot, or none when all are held |
| DocumentQuota.DocumentCache.ReleaseUserQuota | backend/lens/document_attachments.py:459-464 | In place: the user's next reservation succeeds at any time, and every other slot of every user stays as it was |
| DocumentQuota.DocumentCache.StoreDocument | backend/lens/document_attachments.py:90-144 | In place: reserve, save and cache, or undo the reservation when saving raised |
| DocumentQuota.DocumentCache.DeleteDocument | backend/lens/document_attachments.py:349-375 | In place: reports true if and only if the document is live and each given session and user is its own; then it and its slot are gone, otherwise every slot stays |
| DocumentQuota.DeletesOwnExactly | backend/lens/document_attachments.py:356-375 | The same on the cache, with the frame: other documents stay, and a refused deletion of a live document changes nothing |
| DocumentQuota.StoredIsFound | backend/lens/document_attachments.py:90-136 | A stored document is found under its user, session and slot exactly until its lifetime is over, and its slot is taken exactly until the reservation is |
| DocumentQuota.StoreFrame | backend/lens/document_attachments.py:98-144 | A store touches no other document and no taken slot; a failed one leaves neither document nor slot |
| DocumentQuota.BoundIsFound | backend/lens/document_attachments.py:205-243 | A bound document is found until the common timeout and never past its own lifetime; slots and other documents stay |
| ActivityFold.PublicStepDetail | backend/lens/runtime_events.py:646-696 | The loop over the persisted events computes the fold |
| ActivityFold.PrefixStable | backend/lens/runtime_events.py:655-696 | The output for a prefix of the events is a prefix of the output |
| ActivityFold.AttributesStick | backend/lens/runtime_events.py:674-686 | Once an activity has shown a kind, stage, date or order, every later event of that activity shows the same |
| ActivityFold.CallShownExactly | backend/lens/runtime_events.py:671-694 | On the input: the event shown for a tool call has the kind and stage of the activity's first call, the status of this one, and for each date and the order the first value known so far |
| ActivityFold.ToolCallExactly | backend/lens/runtime_events.py:323-394 | Which tool events show an activity, and the status, stage, dates and order each shows |
| ActivityFold.OtherShownExactly | backend/lens/runtime_events.py:669-695 | Every other item is shown as its allowlisted or other form, if it has one |
| ActivityFold.SummaryShownExactly | backend/lens/runtime_events.py:655-669 | On the input: the end of an answered run shows a summary if and only if a business activity was completed before it, with the order that the last one showed |
| ActivityFold.SummaryIsJustified | backend/lens/runtime_events.py:657-667 | A summary appears only after a completed business activity and carries the order of the latest one before it |
| ActivityFold.SummariesAgreeExactly | backend/lens/runtime_events.py:657-667 | A later summary agrees with an earlier one if and only if the last result before the earlier one names no order, or the same order as the last result before the later one |
| ActivityFold.SummariesChange | backend/lens/runtime_events.py:708-724 | A concrete run with two summaries that do not agree |
| RunTree.CollectRuns | backend/lens/alerts.py:70-74 | The frontier loop ends for a run that is on no cycle and collects the run and each descendant exactly once |
| RunTree.RunTokenTotal | backend/lens/alerts.py:65-76 | The result is the usage of the run and all its descendants |
| RunTree.TotalIsSum | backend/lens/alerts.py:75-76 | The total adds up the tokens of exactly the usage rows of these runs |
| RunTree.TotalIsRecursive | backend/lens/alerts.py:65-76 | A run's total is its own usage plus the totals of its children |
| RunTree.FrontierIsLevel | backend/lens/alerts.py:70-74 | On any parent relation the frontier after n iterations is the set of runs n levels below |
| RunTree.EndsExactlyOffCycle | backend/lens/alerts.py:71-74 | The frontier becomes empty after some iteration, so that the loop ends, if and only if the run is not its own ancestor |
| RunTree.CycleNeverEnds | backend/lens/alerts.py:71-74 | For a run on a parent cycle the frontier is non-empty after every iteration |
| RunTree.TopLevelIsOffCycle | backend/lens/alerts.py:645-666 | Top-level runs, which are the ones reconciliation captures, are on no cycle |
| Reconciliation.Reconciler.Round | backend/lens/alerts.py:661-665 | In place: a round stamps the oldest runs up to the limit and moves them to the back of the order |
| Reconciliation.RoundRotates | backend/lens/alerts.py:673-686 | After a round the ordered listing is the old one rotated by the picked runs |
| Reconciliation.EveryRunIsReached | backend/lens/alerts.py:645-666 | Among any k consecutive rounds with k times the limit covering the eligible runs, every run is re-checked |
| Reconciliation.BoundIsTight | backend/lens/alerts.py:645-666 | With fewer rounds than that the last run is still waiting |
| FreshName.NextName | backend/lens/serializers.py:1723-1736 | The search ends and returns the first free name of base, base (2), base (3), ...; at most 160 characters unless the suffix alone exceeds them |
| FreshName.TriedBounded | backend/lens/serializers.py:1730-1736 | When all candidates so far are taken there are at most as many of them as existing names |
| FreshName.CandidateInjective | backend/lens/serializers.py:1731-1733 | Different numbers give different candidates, however the base is cut |
| FreshName.DigitsInjective | backend/lens/serializers.py:1732 | Decimal notation is injective |
| FreshName.DigitsValue | backend/lens/serializers.py:1732 | The numeral of a number stands for it and has no leading zero |
| FreshName.CandidateShape | backend/lens/serializers.py:1732-1733 | A candidate is the base, cut only as far as 160 characters require, and the number in parentheses |
| FreshName.BaseExactly | backend/lens/serializers.py:1726-1727 | The base is the requested name, cut at 160 characters, or a default for an empty one |

## Left out

Alert outbox:

- AlertLate.InPlayExactly: in play means active or queued behind an active owner; whether a send then succeeds depends on the transport. A destination that is cooling down is suppressed by design.
- Transports, rendering, permission and destination resolution: a send is one of delivered, declined or rejected (an exception is a rejection), or a worker that never finishes.
- Rule matching, scope and cooldown queries, and the check for events without a source key: evaluation receives the matches and the answers.
- Language-model calls, evidence and the stored result of a diagnosis: only its status, deadline and claim are kept. The dispatcher's own lease on diagnoses is not part of this model.
- Recipient addresses are taken as already case-folded, the two hashes as injective, and claim tokens as fresh.
- Error texts, display names and channel types of a destination, and waking the dispatcher.
- Each transaction reads one time stamp; row deletion and the races inside a transaction are not part of this model.

Trajectory log:

- Field parsing and JSON encoding: an event is its id, its number and one value for the other compared fields, with an encoded size. JSON equality is equality of that value, so Python's `True == 1` is not captured.
- A missing run: the log is that of one existing run.

Secret masking:

- Which keys are sensitive and how spellings are normalised are parameters. The actual pair is not safe in the sense of CleanExactlyWhenSafe, so for it the conditions on the sent and stored values apply: `accesstoken` is an ordinary key and `accessToken` a sensitive one, with the same normal form.
- Numbers are integers, and Python's equality across booleans and numbers is not captured.

Model failover:

- A consumer that closes the generator early, a callback that raises, call metadata and logging. Eligibility queries and the vision filter are the set of available models.

Smaller loops:

- File validation, storage, and the session and run indexes of documents; times are whole seconds. The lifetime setting is constant over a history. Binding may extend a cache entry to any time, which covers the common timeout of the source.
- Argument parsing that derives an activity's kind, dates and order; these are inputs, already reduced to their safe forms, no observed activity has the kind of the summary, and the event that ends a run reports no tool call. The other sanitised event kinds are one opaque text.
- Concurrent changes to the parent relation while a total is computed; usage rows name the run they belong to.
- The set of eligible runs is fixed over consecutive rounds, and the clock advances.
- Surrounding blanks of a requested name are removed before the search.
