# A verified model of the URL shortener's shared state

The service is a set of uncoordinated processes over PostgreSQL and Redis. This project models the parts where they meet,
in Dafny, and proves what holds of every run and every interleaving. `dafny verify dfyconfig.toml` checks all of it.

Code that updates state in place is a class with methods proved against specification functions. Protocols with several
parties are step systems: an `Action` datatype, `Enabled` and `Next`, where each SQL statement, Lua script, Redis command or
channel operation is one atomic step, any step may fail or be arbitrarily late, and any process may stop. For the methods that span
several steps `*IsAPath` lemmas tie the two together: what the contract says is reached by the steps of the system.

Specification functions say what the code does at one point; lemmas named `*InFields`, `*InNumbers`, `*Numbers`, `*Iff` or `*Counts` say the
same points in terms of rows, characters, positions and literal numbers, without these functions.

| files | what they model |
|---|---|
| `RateLimit` | the Lua token bucket, its client, the policy matrix, and runs of checks with eviction and backward clocks |
| `WebhookStore`, `WebhookQueue` | delivery tables and worker code in place; workers, dispatchers, crashes and lost marks as steps |
| `WebhookAttempts`, `WebhookLease`, `WebhookReclaims`, `WebhookSpacing`, `WebhookOverrun`, `WebhookFailing`, `WebhookDelivered` | invariants of that system, and the runs that break them when the lease is too short |
| `UrlCache`, `UrlHandlers`, `RedirectCache`, `RedirectAgreement`, `RedirectMasking` | the two Redis keys of a code, the resolve, shorten, update and delete handlers, detached fills, failed invalidations |
| `IngestionStore`, `Ingestion`, `IngestionClicks`, `IngestionPaths`, `BatchInsert`, `OnConflict` | click events from capture to the event table and the click counter |
| `Audit` | the audit channel with two consumers |
| `Aggregation`, `AnalyticsQueries`, `Breakdown` | summary, time series and breakdown over the event table |
| `CursorPaging` | pages and whole walks over a changing table |
| `Slug`, `Scopes` | slug generation; the scope join and the scope scanner |

## What the proofs say about the code

- Eviction of a rate-limit key is invisible exactly when the key outlives a full refill. In the policy matrix that fails for
  one policy, enterprise redirect (burst factor 3), where each eviction is worth at most 100000 tokens: the TTL of two windows
  (`internal/infrastructure/redis/ratelimit.go:163-166`) is shorter than the three windows its bucket takes to refill.
- `RetryAfter` is the time until the bucket is *full*, not until one token is back; a caller who waits for it is let in as long
  as fewer than `capacity` other calls on the key were let in meanwhile.
- The webhook lease is exclusive, and delivered and abandoned are final, exactly when `BatchSize * time per delivery` stays
  below five minutes. The defaults (50 deliveries, 30 seconds each) do not meet this. When it fails, a slow worker puts a
  delivered row back to pending, because the marks carry no status guard.
- A failing hook stays failing exactly when no post for it is in flight; and no delivery is queued for it exactly when, besides,
  no dispatch that found it active is.
- The positive key of the code `notfound:x` is the negative key of `x` (`internal/infrastructure/redis/url_cache.go:33-36`). No such code can
  be created, but it can be looked up: the lookup cannot decode the marker and deletes the negative entry of `x`.
- After a successful invalidation every resolve agrees with the table exactly when the pending cache writes are harmless for as
  long as they can be served. The *reason* of a refusal is stable only for rows that cannot expire and are not disabled: an
  expired url is 410 once, then 404 from the negative key.
- A negative entry can answer over a live positive one even when nothing fails: when the entry lands between a request's two
  lookups, as the warm-up of a new code may.
- A PATCH writes back every field it read, including the status; it is the patch of the current row exactly when no other field
  changed in between.
- `IncrementClickCounts` says it continues after an error; it returns (`internal/infrastructure/postgres/analytics_repository.go:154-159`). The model returns.
- The batch comment speaks of a cap of 500 events (`internal/infrastructure/postgres/analytics_repository.go:43`); the cap is 100, and a
  shutdown flush may hold 2048. Both fit into the parameter limit.
- A failed audit write at shutdown is not counted as dropped; a failed write of the drainer is. So the counters account for every
  event exactly when the channel ends empty and the final write did not fail.
- The breakdown's total, and so its percentages, cover only the fifty most clicked values.
- A generated slug can be refused by `Validate`, for its length only. A slug with two hyphens in a row is accepted by the pattern but
  is not a fixed point of the generator.

## Model

| member | source | states |
|---|---|---|
| RateLimit.TokenBucketLimiter.RunScript | internal/infrastructure/redis/ratelimit.go:53-113 | The script statement by statement; the answer and the stored entry are those of `Reply` and `Stored` on what is visible at that instant. |
| RateLimit.TokenBucketLimiter.Check | internal/infrastructure/redis/ratelimit.go:142-213 | The client call: no result and no change when Redis fails, else answer, capacity as limit, and a retry delay that is zero when allowed or already past. |
| RateLimit.EvictionInvisibleIff | internal/infrastructure/redis/ratelimit.go:63-100 | For every policy: no run of checks can tell an evicting store from one that never forgets if and only if the key's lifetime covers a refill from empty. |
| RateLimit.CoveredIffBurstAtMostTwo | internal/infrastructure/redis/ratelimit.go:163-166 | For windows of whole half seconds that condition is a burst factor of at most two. |
| RateLimit.MatrixEviction | internal/domain/ratelimit/policy.go:109-142 | Over the whole matrix, fallback included: only enterprise redirect fails it, with a gift of at most 100000 tokens per eviction. |
| RateLimit.PolicyNumbers | internal/domain/ratelimit/policy.go:109-142 | The matrix in numbers: capacities per tier, one limit per minute, tiers strictly ordered in every class, and the policy of an unauthenticated write for anything unknown. |
| RateLimit.GiftOfPolicy | internal/domain/ratelimit/policy.go:92-103 | One eviction gives at most (burst - 2) * limit tokens, and nothing exactly when the lifetime covers a refill. |
| RateLimit.ForgottenIsNearlyFull | internal/infrastructure/redis/ratelimit.go:63-81 | A bucket whose key has expired would by now have been full up to the gift. |
| RateLimit.Potential | internal/infrastructure/redis/ratelimit.go:78-94 | Allowed calls plus tokens left never exceed tokens at the start plus refill and gifts, in any run, with clocks going back and forth. |
| RateLimit.RateBound | internal/infrastructure/redis/ratelimit.go:78-94 | Allowed calls are at most capacity + rate * sum of forward clock moves + one gift per eviction, from any sound stored state. |
| RateLimit.RateBoundNonDecreasing | internal/infrastructure/redis/ratelimit.go:78-94 | For clocks that do not go back: allowed * window <= capacity * window + limit * T, in integers. |
| RateLimit.RateBoundIsTight | internal/infrastructure/redis/ratelimit.go:78-94 | A run that attains the bound. |
| RateLimit.RemainingIsExact | internal/infrastructure/redis/ratelimit.go:84-94 | After a check reporting r, the k-th further check at that instant passes if and only if k < r. |
| RateLimit.RemainingIsCount | internal/infrastructure/redis/ratelimit.go:84-94 | The reported number is never negative and zero after a denial; of n further checks at that instant, the smaller of n and it pass. |
| RateLimit.ResetIsExact | internal/infrastructure/redis/ratelimit.go:102-112 | The untouched bucket is full at an instant if and only if the instant is not before the reported reset. |
| RateLimit.DeniedCallerAdmittedAtReset | internal/infrastructure/redis/ratelimit.go:186-205 | A denied caller who returns at the reported reset or later is let in if fewer than capacity other calls on the key were let in meanwhile, whatever their number, times and clocks, key evicted or not. |
| RateLimit.AdmissionBoundIsTight | internal/infrastructure/redis/ratelimit.go:186-205 | With capacity calls let through at the reset itself, the returning caller is denied. |
| RateLimit.DeficitOverRun | internal/infrastructure/redis/ratelimit.go:78-94 | In every run the tokens missing are at most what refilling leaves of those missing before, plus the calls let through. |
| RateLimit.KeysAreIndependent | internal/infrastructure/redis/ratelimit.go:61-100 | In any interleaving over many keys, each key ends as if only its own checks had been made. |
| WebhookStore.Store.ClaimPending | internal/infrastructure/postgres/webhook_repository.go:170-211 | Claims distinct claimable rows, earliest first, all of them if they fit the limit; changes status, attempts and last attempt of these and nothing else. |
| WebhookQueue.ClaimSize | internal/infrastructure/postgres/webhook_repository.go:170-187 | A claim takes as many rows as are due, up to the limit, which is fifty unless a positive one is given. |
| WebhookStore.Store.MarkDelivery | internal/infrastructure/postgres/webhook_repository.go:213-240 | A mark updates by id alone, with no status guard; an absent row is left absent. |
| WebhookStore.Store.MarkHook | internal/infrastructure/postgres/webhook_repository.go:110-130 | Success makes a hook active with no failures, failure makes it failing with the count given. |
| WebhookStore.Store.RecordFailure | internal/application/webhook/worker.go:122-139 | Retry with the schedule's delay, or abandon, and turn the hook failing only if it was loaded. |
| WebhookStore.Store.ProcessDelivery | internal/application/webhook/worker.go:76-120 | All paths of one delivery, with either write lost or not, against the one decision table `Written`. |
| WebhookStore.DeliveredIff | internal/application/webhook/worker.go:87-117 | A delivery is marked delivered, and its hook successful, if and only if the hook exists and is active and the answer's status is 2xx. |
| WebhookStore.FailedInNumbers | internal/application/webhook/worker.go:122-139 | Otherwise attempts one to four are retried 30 s, 5 min, 30 min and 2 h later, any other is abandoned and counts one more failure on a loaded hook; an inactive or missing hook means abandoned. |
| WebhookStore.RowsInNumbers | internal/infrastructure/postgres/webhook_repository.go:179-191 | Which rows are due (300 seconds for a stale one), and every column after a claim and after each mark. |
| WebhookStore.TablesInNumbers | internal/infrastructure/postgres/webhook_repository.go:110-130 | Marks change the row named and no other; success resets a hook, failure stores the count; a hook takes its deliveries with it. |
| WebhookDelivered.DeliveredWasAnswered | internal/application/webhook/worker.go:104-117 | In every run, with crashes, lost marks and overrun leases: a delivered row has had a post answered with a status from 200 to 299. |
| WebhookAttempts.RunCounted | internal/infrastructure/postgres/webhook_repository.go:188-196 | In every run, with any timing: attempt numbers of one delivery are never held twice and each retry is of a new attempt below the fifth. |
| WebhookAttempts.AttemptBound | internal/domain/webhook/entity.go:131-140 | attempt_count is the number of claims and at most five plus the stale reclaims; pending rows are strictly below. |
| WebhookAttempts.LastMarkIsTerminal | internal/application/webhook/worker.go:122-139 | A mark written for the fifth or a later attempt is delivered or abandoned. |
| WebhookLease.StepLeases | internal/infrastructure/postgres/webhook_repository.go:170-240 | If a batch fits the claim timeout, every step keeps: held rows carry their holder's claim, holders are on schedule, no row is held twice. |
| WebhookLease.HeldIsNotStale | internal/infrastructure/postgres/webhook_repository.go:18 | Under that condition a held row is never claimable. |
| WebhookLease.StepKeepsTerminal | internal/infrastructure/postgres/webhook_repository.go:213-240 | Under the lease invariant delivered and abandoned are absorbing. |
| WebhookOverrun.ExclusiveIff | internal/infrastructure/postgres/webhook_repository.go:170-211 | For every configuration: all reachable states are exclusive if and only if batch size * time per delivery < claim timeout; the same over the runs in which claims never overlap. |
| WebhookOverrun.TerminalIffLease | internal/infrastructure/postgres/webhook_repository.go:213-240 | Terminal statuses are final in all runs if and only if the same inequality holds; likewise over the runs in which claims never overlap. |
| WebhookOverrun.Overrun | internal/application/webhook/worker.go:65-74 | Otherwise: a run, each claim of which is what ClaimPending returns there, in which a slow worker delivers all but the last row and a second worker claims that one while the first is at it. |
| WebhookOverrun.Undelivered | internal/application/webhook/worker.go:112-139 | ... and goes on to deliver it, after which the first worker puts it back to pending. |
| WebhookOverrun.DefaultsOverrun | internal/config/config.go:157-159 | The default batch size and HTTP timeout violate the inequality, whatever the overhead. |
| WebhookReclaims.SettledByFifthClaim | internal/domain/webhook/entity.go:42-52 | With the lease, no crash and no lost mark: nothing is reclaimed, at most five claims, and after the fifth the delivery is terminal or still with its worker. |
| WebhookReclaims.ScheduledSpacing | internal/domain/webhook/entity.go:47-52 | In the same runs a post on attempt k after an earlier post comes at least the (k-1)-th delay of the schedule after it, and k is at most five. |
| WebhookReclaims.StepKeepsOwed | internal/application/webhook/worker.go:70-120 | Every delivering row is owed a mark by some worker, kept by every reliable step. |
| WebhookSpacing.PostSpacing | internal/domain/webhook/entity.go:47-52 | In every run with the lease, a post comes at least the schedule's delay after the previous post of its delivery, and at least the claim timeout less a batch after one that was reclaimed. |
| WebhookFailing.StaysFailingIff | internal/application/webhook/worker.go:112-138 | From any state, a failing hook is never reactivated in any run if and only if no post for it is in flight. |
| WebhookFailing.NothingQueuedIff | internal/infrastructure/postgres/webhook_repository.go:132-168 | From any state with a failing hook, nothing new is queued for it in any run if and only if neither a post for it nor a dispatch that found it active is in flight. |
| WebhookFailing.LateDispatch | internal/application/webhook/dispatcher.go:25-57 | A dispatcher that found the hook earlier queues a delivery for it, failing or not. |
| WebhookFailing.ClaimOfFailingHookIsAbandoned | internal/application/webhook/worker.go:87-90 | In every run from there: once a worker has loaded the hook for a claimed delivery, whatever the others do before its mark is written, the mark makes the row abandoned, if it still exists, and changes no other row and no hook. |
| WebhookFailing.NeverPosted | internal/application/webhook/worker.go:87-104 | ... and no worker is ever about to post to the hook. |
| WebhookFailing.Reactivation | internal/application/webhook/worker.go:112-117 | A worker with a post in flight can make a failing hook active again. |
| WebhookFailing.WorkerCodeIsAPath | internal/application/webhook/worker.go:76-120 | The worker's steps, undisturbed, reach exactly the writes of ProcessDelivery, for every outcome. |
| UrlCache.UrlCache.Get | internal/infrastructure/redis/url_cache.go:129-168 | Hit, miss or failure on the one key space; a live value that does not decode, corrupt or another code's marker, is deleted and reported as a failure, nothing else changes. |
| UrlCache.UrlCache.Set | internal/infrastructure/redis/url_cache.go:183-210 | Sets the positive key of the code with its TTL and no other key. |
| UrlCache.UrlCache.SetNotFound | internal/infrastructure/redis/url_cache.go:227-246 | Sets the negative key of the code with its TTL and no other key. |
| UrlCache.UrlCache.IsNotFound | internal/infrastructure/redis/url_cache.go:260-281 | True exactly when something live is under the negative key. |
| UrlCache.UrlCache.Delete | internal/infrastructure/redis/url_cache.go:294-314 | Removes both keys of one code and no other. |
| UrlCache.UrlCache.Handle | internal/application/resolve/handler.go:48-142 | The three-stage resolve with every combination of failing lookups equals `Resolve`, including the fill it leaves behind; the key space changes as by Get alone. |
| UrlCache.DecisionsInFields | internal/domain/url/entity.go:65-83 | In fields of the row: an active row is served up to and including its expiry, after it the answer is expired, before it a disabled row says so and any other is not found. |
| UrlCache.RequestInFields | internal/application/resolve/handler.go:56-121 | In the same terms, what a request answers and leaves for the cache on a hit, a negative hit, a read of the table, and when lookups fail. |
| UrlCache.CacheRoundTrips | internal/infrastructure/redis/url_cache.go:183-314 | What was set, or marked not found, is found exactly until its time is up; after a delete neither is. |
| UrlCache.PatchInFields | internal/application/url/update_handler.go:96-110 | A given target or expiry is the one stored, a removed expiry is removed, the rest stays as it was. |
| UrlCache.KeysMeetIff | internal/infrastructure/redis/url_cache.go:33-36 | Keys of one kind are different for different codes; the positive key of one code is the negative key of another if and only if it is that code with "notfound:" in front. |
| UrlCache.OthersOnlyClearNegative | internal/infrastructure/redis/url_cache.go:129-168 | A lookup of another code leaves the keys of a code without that prefix alone, except that the lookup of "notfound:" + code deletes a live negative entry. |
| UrlCache.UnmarkedKeysAreApart | internal/infrastructure/redis/url_cache.go:33-36 | Two codes without the prefix share no key. |
| UrlHandlers.CustomCodesAreUnmarked | internal/application/shorten/handler.go:320-355 | No accepted custom code has the prefix. |
| RedirectMasking.MaskingIff | internal/application/resolve/handler.go:56-93 | In every run: a negative entry answers a request over a live redirectable positive entry if and only if both are live and the request's own positive lookup did not get the entry, because it failed or because nothing live was there and the entry has landed since. |
| RedirectMasking.MaskedWithoutFailure | internal/application/shorten/handler.go:224-232 | A run without any failure that ends there: a code is looked up, created and warmed between the two lookups of a second request, which is told not found. |
| UrlHandlers.UrlService.Shorten | internal/application/shorten/handler.go:108-232 | Bad target first. Custom code: accepted, refused or a conflict at once. Generated codes: the retry loop. An insert that fails otherwise ends the call. Success inserts one free code and warms only the positive key. |
| UrlHandlers.FirstFreeCodeWins | internal/application/shorten/handler.go:156-208 | With generator and database working, the loop takes the first free one of three drawn codes and reports a conflict if and only if all three are taken. |
| UrlHandlers.AttemptsThatEnd | internal/application/shorten/handler.go:157-199 | A failing generator, a drawn code not of 3 to 32 characters, and a failing insert each end the loop. |
| UrlHandlers.CustomCodeIff | internal/application/shorten/handler.go:302-355 | Exactly the texts of 3 to 32 letters, digits, hyphens and underscores that spell none of the reserved paths in any case are custom codes. |
| UrlHandlers.UrlService.Update | internal/application/url/update_handler.go:87-137 | In this order: read error, not found, bad target, write error, or the patched row written and both keys deleted unless Redis fails. |
| UrlHandlers.UrlService.Delete | internal/application/url/delete_handler.go:73-102 | Read error, not found, write error, or soft deletion and both keys deleted unless Redis fails; the code stays taken. |
| RedirectCache.HandleIsAPath | internal/application/resolve/handler.go:48-121 | The steps of one request, undisturbed, give the answer and the pending fill of Handle. |
| RedirectCache.ShortenIsAPath | internal/application/shorten/handler.go:177-232 | Likewise the insert and the warm-up of Shorten, once its code is free. |
| RedirectCache.UpdateIsAPath | internal/application/url/update_handler.go:87-137 | Likewise read, write and invalidation of Update. |
| RedirectCache.DeleteIsAPath | internal/application/url/delete_handler.go:73-102 | Likewise read, write and invalidation of Delete. |
| RedirectCache.StepSourced | internal/application/resolve/handler.go:144-180 | Every step keeps: whatever is cached or about to be was the table's value when read, recently enough. |
| RedirectCache.BoundedStaleness | internal/application/resolve/handler.go:66-77 | In every run, with any failures and late fills, a served target was the code's live row less than cacheTTL + fill delay ago, with status active and no expiry before the time of serving. |
| RedirectCache.UndisturbedRequest | internal/application/resolve/handler.go:56-142 | The converse: an undisturbed request for a row, cached or only in the table, is redirected to its target if the row is active and not past its expiry, else told expired, disabled or not found. |
| RedirectCache.BoundedHiding | internal/application/resolve/handler.go:81-93 | In every run a negative answer comes within negativeTTL + fill delay of an instant with nothing redirectable, new codes included. |
| RedirectCache.QuiescentCoherence | internal/application/url/update_handler.go:117-137 | After a successful invalidation with no outdated fill pending, every resolve until the next write decides as the table does, expiry passing included; the answer is the table's own if and only if it is not a negative entry standing in for an expired or disabled url. |
| RedirectAgreement.InvalidationCoherentIff | internal/application/url/delete_handler.go:84-102 | In any reachable state, after a successful invalidation, such agreement holds if and only if every pending fill or warm-up is harmless for as long as it may be served. |
| RedirectAgreement.LateWarmingDisagrees | internal/application/shorten/handler.go:224-232 | A pre-warm still pending from creation, with a row that decides differently at some instant of its life, is served at that instant. |
| RedirectAgreement.HarmfulFillIsReachable | internal/application/resolve/handler.go:144-161 | A run without failures after which a successful invalidation leaves a harmful fill pending, so that some resolve disagrees. |
| RedirectAgreement.ReasonKeptIff | internal/application/resolve/handler.go:108-142 | With nothing cached and nothing outdated pending: every answer until the next write carries the table's own reason if and only if there is no live row, or it has no expiry and is not disabled. |
| RedirectAgreement.RefusalReasonDrifts | internal/application/resolve/handler.go:108-111 | From any state with nothing cached and a row that is expired or disabled: one request is told so, a later one not found. |
| RedirectCache.UpdateIsPatchIff | internal/infrastructure/postgres/url_repository.go:112-135 | The full-row update is the patch of the current row if and only if no field the patch leaves alone, status included, changed since the read. |
| RedirectCache.LostUpdate | internal/application/url/update_handler.go:83-123 | A run without failures in which a row disabled during an update is active again after it. |
| IngestionStore.Tally | internal/application/analytics/ingestion_service.go:315-324 | The aggregation loop gives each code its number of non-bot events, and no zero entries. |
| IngestionStore.NonBotCounts | internal/application/analytics/ingestion_service.go:318-324 | What is counted for a code: the positions of its events that are not bots. |
| IngestionStore.AnalyticsRepository.WriteMany | internal/infrastructure/postgres/analytics_repository.go:51-106 | One statement: all events of the batch whose key (id, occurred_at) is new, or none. |
| IngestionStore.AnalyticsRepository.IncrementClickCounts | internal/infrastructure/postgres/analytics_repository.go:133-163 | In any map order: exactly the codes updated before the first error are incremented, on live rows only. |
| IngestionStore.IngestionService.Capture | internal/application/analytics/ingestion_service.go:206-216 | Enqueues if there is room, else counts a drop. |
| IngestionStore.IngestionService.Flush | internal/application/analytics/ingestion_service.go:295-333 | Written or dropped in full, counters to match, and click counts of the applied codes. |
| IngestionStore.IngestionService.Receive | internal/application/analytics/ingestion_service.go:277-282 | The reused buffer holds exactly the events since the last flush; a full one is inserted, counted and added to click_count, or dropped. |
| IngestionStore.IngestionService.FlushPending | internal/application/analytics/ingestion_service.go:269-288 | The tick and the final flush empty the buffer; events, counters and click counts move by what it held. |
| IngestionStore.IngestionService.FlushRemaining | internal/application/analytics/ingestion_service.go:239-255 | The shutdown loop empties the channel; events, counters and click counts move by what it held. |
| Ingestion.EveryEventInOnePlace | internal/application/analytics/ingestion_service.go:229-333 | In every reachable state each captured event is in exactly one of channel, drainer, shutdown, written, lost; channel and batch within bounds. |
| Ingestion.PipelineNumbers | internal/application/analytics/ingestion_service.go:206-216 | A capture is dropped exactly if 2048 events are waiting, the hundredth event of a batch starts a flush, an update counts on live rows only. |
| Ingestion.StepBalanced | internal/application/analytics/ingestion_service.go:259-291 | Every step keeps the balance of captured events over these places. |
| Ingestion.AccountedIff | internal/application/analytics/ingestion_service.go:229-256 | When shutdown ends without timing out, captures = written + dropped if and only if the channel is empty. |
| Ingestion.QuietShutdownAccountsForAll | internal/application/analytics/ingestion_service.go:229-256 | ... which is so when nobody captures after shutdown is called. |
| IngestionClicks.ClickCountAgreement | internal/application/analytics/ingestion_service.go:315-332 | From a start on any tables, with other services writing to them: click_count never exceeds the persisted non-bot events; with no updates outstanding anywhere, it equals them if and only if none was missed, since or before. |
| IngestionClicks.RestartAgrees | internal/infrastructure/postgres/analytics_repository.go:126-132 | A service that starts on the tables another left behind starts in such a state, the updates that one still had to make being missed. |
| IngestionClicks.NothingMissed | internal/infrastructure/postgres/analytics_repository.go:149-162 | No update is missed when none fails and the row stays live. |
| IngestionClicks.ClicksMatchEvents | internal/application/analytics/ingestion_service.go:303-332 | If the row is there before its first persisted event, stays live and no update fails, here or elsewhere, click_count plus the updates outstanding is the number of persisted non-bot events. |
| Ingestion.BatchIsNew | internal/infrastructure/postgres/analytics_repository.go:45-49 | In every reachable state the batch about to be inserted is new to the event table, whoever else writes to it, so the insert skips nothing. |
| IngestionPaths.FlushIsAPath | internal/application/analytics/ingestion_service.go:295-333 | For the drainer and for shutdown, a successful or a failed insert, any order of the codes and any point of failure, the steps reach the result of Flush. |
| IngestionPaths.ReceiveIsAPath | internal/application/analytics/ingestion_service.go:277-282 | Likewise Receive, with a full batch or not. |
| IngestionPaths.FlushPendingIsAPath | internal/application/analytics/ingestion_service.go:269-288 | Likewise FlushPending, on a tick or at the end. |
| IngestionPaths.FlushRemainingIsAPath | internal/application/analytics/ingestion_service.go:239-255 | Likewise FlushRemaining, once the drainer has stopped. |
| BatchInsert.BuildInsert | internal/infrastructure/postgres/analytics_repository.go:63-97 | Every row of the VALUES list stores its own event, each column named, empty text as NULL; every argument is used exactly once. |
| BatchInsert.HeldReadsBack | internal/infrastructure/postgres/analytics_repository.go:75-90 | Nothing is lost by that: the event reads back from its row. |
| BatchInsert.SameKeyIff | deployments/migrations/000005_create_redirect_events.up.sql:70-71 | Two rows repeat a key if and only if both id and occurred_at agree. |
| BatchInsert.BindPrefix | internal/infrastructure/postgres/analytics_repository.go:67-91 | Arguments appended for later rows do not change what earlier placeholders stand for. |
| BatchInsert.FitsIff | internal/infrastructure/postgres/analytics_repository.go:39-43 | A statement stays within 65535 parameters if and only if it has at most 4681 events, which every flush meets. |
| BatchInsert.StatementStores | internal/infrastructure/postgres/analytics_repository.go:93-99 | The built statement succeeds and only appends; every event of the batch reads back from a row of its own if and only if no key (id, occurred_at) repeats in table and batch. |
| OnConflict.InsertKeepsTable | internal/infrastructure/postgres/analytics_repository.go:45-49 | Rows are only appended, the key stays unique, and afterwards exactly the old and the batch's keys are there. |
| OnConflict.InsertIsIdempotent | internal/infrastructure/postgres/analytics_repository.go:45-49 | Writing a batch again, whole or in part, changes nothing. |
| OnConflict.InsertsAllIff | deployments/migrations/000005_create_redirect_events.up.sql:70-71 | Every row of the batch is inserted if and only if no key repeats in table and batch. |
| Audit.AuditService.Capture | internal/application/audit/service.go:96-108 | Enqueues if there is room, else counts a drop. |
| Audit.AuditService.Flush | internal/application/audit/service.go:200-219 | No call for an empty batch, one call else; a failure is counted, the batch emptied either way. |
| Audit.AuditService.Receive | internal/application/audit/service.go:227-232 | Moves one event into the batch, and flushes a full one, counting it as dropped if the write fails. |
| Audit.AuditService.Shutdown | internal/application/audit/service.go:162-190 | Empties the channel in order and makes one call with what it held; a failure is not counted. |
| Audit.NoDoubleWrite | internal/application/audit/service.go:162-240 | Under every interleaving of drainer and shutdown no event enters two WriteMany calls, or one call twice, and only accepted events enter any. |
| Audit.AllWrittenIff | internal/application/audit/service.go:162-240 | Once both consumers have stopped, every accepted event has entered exactly one call if and only if the channel is empty. |
| Audit.AuditNumbers | internal/application/audit/service.go:48-59 | In every run: an event is rejected exactly if 2048 are waiting, and the fiftieth event of a batch starts a write. |
| Audit.QuietShutdownWritesAll | internal/application/audit/service.go:162-190 | ... which is so when captures end before shutdown finds the channel empty. |
| Audit.DropCounterIsExact | internal/application/audit/service.go:96-108 | In every run the drop counter is the rejected events plus those of the drainer's failed calls, and every accepted event is unwritten, persisted, or lost in a failed call. |
| Audit.AccountedIff | internal/application/audit/service.go:162-219 | Once both consumers have stopped, captures = persisted + dropped if and only if the channel is empty and the final call did not fail. |
| Audit.LostAtShutdown | internal/application/audit/service.go:184-189 | A run that ends with one event captured, the channel empty, and nothing persisted or counted as dropped. |
| Audit.ReceiveIsAPath | internal/application/audit/service.go:221-239 | The drainer's steps reach what Receive's contract says. |
| Audit.ShutdownIsAPath | internal/application/audit/service.go:162-190 | Shutdown's steps, undisturbed, reach what its contract says, from any state and with a drainer in any phase. |
| AnalyticsQueries.GetTimeSeries | internal/infrastructure/postgres/analytics_query_repository.go:101-186 | Each point is the one-shot summary of the part of the window in its bucket; an unsupported granularity is an error. |
| AnalyticsQueries.SummaryCounts | internal/infrastructure/postgres/analytics_query_repository.go:62-70 | The summary is the number of table positions with a human row of the code in the window, the number with a bot row, and the number of different addresses in the former. |
| AnalyticsQueries.HitsKeepMultiplicity | internal/infrastructure/postgres/analytics_query_repository.go:67-70 | A row the WHERE clause keeps is kept as often as it is in the table. |
| AnalyticsQueries.PointCounts | internal/infrastructure/postgres/analytics_query_repository.go:135-152 | The clicks of a point are the number of table positions with a human row of the code in the window and in the bucket. |
| AnalyticsQueries.GranularityNumbers | internal/infrastructure/postgres/analytics_query_repository.go:272-283 | Bucket widths and longest windows in microseconds. |
| AnalyticsQueries.BucketsTile | internal/infrastructure/postgres/analytics_query_repository.go:127-134 | Buckets are contiguous and distinct, and each instant of the window lies in exactly one, its truncation. |
| AnalyticsQueries.SeriesTotalIsSummary | internal/infrastructure/postgres/analytics_query_repository.go:62-70 | The points' clicks add up to the summary's total for every window, empty and inverted ones included. |
| AnalyticsQueries.SeriesUniquesIff | internal/infrastructure/postgres/analytics_query_repository.go:135-152 | Unique visitors of the summary are at most the sum over the points, with equality if and only if no address is in two buckets. |
| AnalyticsQueries.ValidatedPointsBound | internal/domain/analytics/query.go:85-102 | A valid window gives at most 1441, 721 or 366 points; one of full length attains that if and only if its start is not aligned. |
| Breakdown.QueryTop | internal/infrastructure/postgres/analytics_query_repository.go:217-228 | GROUP BY, ORDER BY clicks DESC, LIMIT 50: distinct values, sorted, none left out that has more clicks; NULL is a value of its own. |
| Breakdown.GetBreakdown | internal/infrastructure/postgres/analytics_query_repository.go:193-266 | The top values with their clicks, the total of these, percentages of that total; an unknown dimension is an error. |
| Breakdown.EntriesCount | internal/infrastructure/postgres/analytics_query_repository.go:217-246 | Each entry's clicks are the number of table positions with a human row of the code in the window that has the value; NULL shows as the empty text; no entry is empty, and there are as many as values, up to fifty. |
| Breakdown.ColumnsByName | internal/domain/analytics/query.go:126-141 | Which column each dimension reads. |
| Breakdown.PercentagesAddUp | internal/infrastructure/postgres/analytics_query_repository.go:251-256 | Whenever the total is positive the percentages add up to one hundred. |
| Breakdown.BreakdownTotalIsSummaryIff | internal/infrastructure/postgres/analytics_query_repository.go:237-246 | The breakdown's total is at most the summary's, and equal if and only if there are at most fifty values. |
| Breakdown.BreakdownCoverage | internal/infrastructure/postgres/analytics_query_repository.go:226-228 | With V > 50 values the total still covers at least 50/V of the summary. |
| CursorPaging.List | internal/infrastructure/postgres/url_repository.go:307-394 | Fetch one too many, append, trim: the page and cursor of `PageOf`, for every filter and limit. |
| CursorPaging.PageSplits | internal/infrastructure/postgres/url_repository.go:385-391 | A page holds exactly the matching rows up to its cursor, all of them when there is none. |
| CursorPaging.WalkIncreases | internal/infrastructure/postgres/url_repository.go:338-345 | With any changes between pages ids strictly increase over the whole walk. |
| CursorPaging.WalkReturnsStableRows | internal/infrastructure/postgres/url_repository.go:338-345 | A row that matches throughout a finished walk is returned. |
| CursorPaging.WalkReturnsOnlyMatches | internal/infrastructure/postgres/url_repository.go:338-345 | Each returned id matched in the table its page was read from. |
| CursorPaging.ListedInFields | internal/infrastructure/postgres/url_repository.go:338-345 | Every row of every page of every walk is of the asked workspace, not deleted, and of the asked status and creator where these are given and not empty. |
| CursorPaging.FixedWalkReturnsExactly | internal/infrastructure/postgres/url_repository.go:338-345 | A walk over a fixed table returns a row if and only if this holds of it; without filters, exactly the undeleted rows of the workspace. |
| CursorPaging.PageSize | internal/infrastructure/postgres/url_repository.go:317-328 | A page has what is left, up to the limit asked for, 20 by default and 100 at most. |
| CursorPaging.FixedWalkIsSortedScan | internal/infrastructure/postgres/url_repository.go:317-393 | On a fixed table the pages concatenate to the filtered sorted scan, in max(1, ceil(n / limit)) pages. |
| CursorPaging.FixedWalkFillsPages | internal/infrastructure/postgres/url_repository.go:317-323 | Every page but the last is full. |
| CursorPaging.WalkOfConstant | internal/infrastructure/postgres/url_repository.go:385-391 | The walk over a fixed table is the general walk that sees the same table each time, and it finishes. |
| CursorPaging.PagesForIsCeiling | internal/infrastructure/postgres/url_repository.go:325-328 | The page count is that ceiling. |
| Slug.GenerateSlug | internal/domain/workspace/entity.go:201-232 | The byte loop and the trimming loop give the lower-cased alphanumeric runs joined by hyphens, or "workspace". |
| Slug.PlainName | internal/domain/workspace/entity.go:205-215 | A name of letters and digits only becomes these in lower case. |
| Slug.SeparatedName | internal/domain/workspace/entity.go:216-231 | Any other character becomes one hyphen between two parts that have letters or digits and is dropped next to one that has none; a name without any is "workspace". |
| Slug.CaseDoesNotMatter | internal/domain/workspace/entity.go:207-212 | Names that differ in the case of letters only have the same slug. |
| Slug.SlugMatchesPattern | internal/domain/workspace/entity.go:126 | For every rune sequence the slug matches the pattern and has no double hyphen. |
| Slug.FixedPointIff | internal/domain/workspace/entity.go:201-232 | A string is its own slug if and only if it matches the pattern and has no double hyphen. |
| Slug.SlugIsIdempotent | internal/domain/workspace/entity.go:198-232 | Generating again changes nothing. |
| Slug.GeneratedSlugAcceptedIff | internal/domain/workspace/entity.go:141-161 | A generated slug is accepted if and only if the name's alphanumerics plus its words less one come to at most 63; in particular for every name of at most 63 characters. |
| Slug.LongNameMakesRefusedSlug | internal/domain/workspace/entity.go:141-161 | A valid name whose generated slug is refused. |
| Scopes.HasScope | internal/domain/auth/claims.go:82-98 | The index scanner answers true if and only if the scope is one of the pieces between single spaces; absent claims have none. |
| Scopes.GrantedInText | internal/domain/auth/claims.go:86-96 | A scope is a piece if and only if it stands in the text without a space in it and with spaces or the ends of the text around it. |
| Scopes.KeyHasScope | internal/domain/apikey/entity.go:86-93 | Membership in the key's list. |
| Scopes.ValidateScopes | internal/domain/apikey/entity.go:116-127 | Empty message if and only if the list is non-empty and all valid; else the message names the first invalid one. |
| Scopes.SplitOfJoin | internal/domain/apikey/entity.go:98-100 | Splitting the joined string gives the list back when no scope contains a space. |
| Scopes.JoinThenScanIff | internal/interfaces/http/middleware/apikey.go:141 | The joined string grants exactly the key's scopes if and only if there is one and none contains a space. |
| Scopes.ValidatedKeysRoundTrip | internal/domain/apikey/entity.go:114-127 | For every validated key, claims built from it and the key answer alike for every string (scope syntax of RFC 6749 section 3.3). |

## Left out

- Floating point: tokens, rates and percentages are reals; the rounding of Lua's `tostring` and of float64 is not modelled.
- Policies with windows that are not whole milliseconds, and limits or windows that are not positive, in the results about runs.
- Clocks: Redis expiry follows the clock of the check; database and worker clocks agree; cache TTLs are positive and in milliseconds.
- PostgreSQL: each statement is atomic, SKIP LOCKED makes a claim that overlaps others take any due rows (one that overlaps none takes what ClaimPending's contract says), the replica does not lag, a statement that reports an error had no effect, and `date_trunc` is the UTC floor.
- Event times below the microsecond, which the database does not keep.
- Columns no decision looks at: titles, payloads, last errors, HTTP statuses, delivered_at, last success and failure times.
- The order of rows with the same next_attempt_at, and of breakdown values with the same clicks: any order is allowed.
- Webhook registration and re-enabling by hand: hooks change status only through marks, and disappear by deletion.
- Fresh ids: ULIDs are numbers, never drawn twice; the click counter result depends on it, since a repeated event would be counted but not stored.
- Audit.AuditService.Receive: the batch buffer of the audit drainer is a sequence, so the reuse of its underlying array is not modelled; the analytics drainer's buffer is an array.
- BatchInsert.BuildInsert: placeholders are numbers, not their decimal text inside the query string.
- UrlHandlers.UrlService.Shorten: whether the target is a valid url is a parameter, since that is URL parsing.
- UrlHandlers.UrlService.Update: the target's validity is a parameter, and the read and the write see one table; what happens between them is UpdateIsPatchIff, and a row gone by then is a step of RedirectCache.
- UrlHandlers.UrlService.Delete: the read and the write see one table; a row gone in between is a step of RedirectCache.
- RedirectCache covers one short code without the prefix `notfound:`; all that the code with the prefix can do to it, deleting its negative entry, is a step. Generated codes are letters and digits, so they never have the prefix.
- Real goroutine scheduling and select fairness: any enabled step may be taken, and termination of the service loops is not claimed.
- HTTP handlers, SSE streaming, JWT, signatures, hashing, roles, user-agent lists, metrics and the frontend: no shared state with an invariant.
- Export jobs: a claim without lease or retry, which would repeat the webhook queue at lower difficulty.
