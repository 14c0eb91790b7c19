# A model of the SS-backend core, with proofs

This Dafny project models the stateful core of the StellarSettle backend and proves what its parts promise together.
`dafny verify dfyconfig.toml` checks all of it. Objects that the source updates in place are classes whose methods are
proved equal to a step function on values; the theorems are then about those step functions and about whole runs of them.

| files | what they model |
|---|---|
| `Common.dfy` | Option and Result, `trim`, clock readings |
| `LifecycleEvents.dfy`, `DispatchModel.dfy`, `DispatchSafety.dfy`, `DispatchProgress.dfy`, `DispatchDelivery.dfy`, `NotificationDispatcher.dfy` | the notification dispatcher: event ids, its event-loop steps in every interleaving, what each step keeps, why it quiesces, what the notification store holds, and the dispatcher as an object |
| `InvoiceLifecycle.dfy`, `InvoiceStateMachine.dfy`, `LifecycleNotifications.dfy`, `LifecycleSystem.dfy` | the invoice status machine, its persisted history, its effects, and the whole path from invoices through dispatched transitions to the dispatcher as one interleaved system |
| `TtlCache.dfy`, `TtlCacheAgreement.dfy`, `AclService.dfy` | the bounded TTL cache in memory-only mode, its agreement with an unbounded map, LRU retention, and the ACL read model on top of it |
| `SlidingWindow.dfy`, `WalletRateLimiter.dfy` | the Redis sliding-window script and the per-wallet fixed window |
| `PaymentClaims.dfy`, `PaymentLedger.dfy` | the payment-claim triggers, the foreign key they interact with, and the migration that fills the claims |
| `LogSanitizer.dfy` | the two log sanitisers over arbitrary object graphs |
| `ProRata.dfy`, `DecimalStrings.dfy` | pro-rata shares, four-decimal amounts, stroop formatting |
| `CircuitBreaker.dfy`, `Metrics.dfy` | the circuit breaker under overlapping calls, and the request histogram |

## Where the code does not do what one would expect

- A colon in a user id can hide a notification: dedupe keys of different (event, user) pairs can coincide. `SharedDedupeKeys`
  says exactly when, `ColonsHideRecipients` gives the family, and `DeliveredExactly`, for any user ids and over every run: a recipient
  of a delivered event has its row if and only if its key does not belong to another user. The other run theorems assume colon-free
  user ids (UUIDs are).
- The claim triggers do not watch the primary key. `ExecKeepsExactly`: a committed statement keeps every row in agreement with its
  claim if and only if it is not an update of the id alone on a row whose claim is under that id. `TwoOwnersExactly`: exactly after
  such an update can an operation come to have two owners, because a new row under the old id passes with the old claim. The run
  theorems (`RunsKeepTheLedger`, `OneOwnerForever`) are about runs without such updates.
- The claim triggers and `ON DELETE SET NULL` together make an investment undeletable as soon as a transaction that names an on-chain
  operation refers to it (`DeleteInvestmentExactly`, both directions).
- `normalizeLogMetadata` does not remember an array passed as the metadata itself, so a cycle through it expands that array twice;
  nothing else is ever expanded twice (`NormalizedExpandsOnce`). `RootExpandsTwiceExactly`: an array that leads to at most eight objects
  is expanded twice if and only if it is on a cycle, and so is any array whose walk the depth limit does not cut
  (`UncutRootExpandsTwiceExactly`). Off every cycle it is expanded once whatever the size. Eight is sharp: a ring of arrays is expanded
  twice exactly up to length eight (`RingExpandsTwiceExactly`). A merely shared object is also reported as `[Circular]`
  (`SharedIsMarkedCircular`), which the comment at `src/observability/logger.ts:17` does not say.
- The comment at `src/services/acl.service.ts:128-131` promises that the read after an event is immediately accurate. An update that
  arrives between a reader's repository read and its cache write leaves the old list cached for up to the TTL (`DisturbedReadIsStale`).
  `NextIsCurrentExactly`: a step keeps what is cached and in flight current if and only if it is not an update that changes the list
  while a read is in flight. `StaleReadsExactly`: from any state, some later read is answered with an old list after every handler has
  finished if and only if that state is no longer current.
- The wallet limiter always admits the first request of a window, so a configured limit below one acts as one, and the sharp bound over
  any half-open interval of one window's length is `2 * max(1, limit) - 1` (`EveryWalletIsBounded`, and `TheBoundIsReached` for windows
  longer than a millisecond). The circuit breaker's thresholds below one act as one too.
- The sliding window's retry hint is exact if and only if the limit is positive; with a limit of zero no wait helps.

## Model

| member | source | states |
|---|---|---|
| `LifecycleEvents.DefaultIdsAreInjective` | src/lib/notification-dispatcher.ts:126-132 | default event ids of colon-free invoice ids tell apart invoices, kinds and, for extensions, deadlines |
| `LifecycleEvents.EventIdText` | src/lib/notification-dispatcher.ts:126-132 | an explicit non-empty id wins; otherwise the id is the documented text of invoice, kind and new deadline |
| `LifecycleEvents.SharedDedupeKeys` | src/lib/notification-dispatcher.ts:310-316 | two (event, user) pairs share a dedupe key if and only if they are equal or one user id continues the other across a colon |
| `LifecycleEvents.DedupeKeysAreInjective` | src/lib/notification-dispatcher.ts:310-316 | for colon-free user ids the dedupe key determines event and user |
| `DispatchModel.AddAll` | src/lib/notification-dispatcher.ts:298-306 | recipients are a set: every seller and investor once, whatever the investor list repeats |
| `DispatchModel.RecipientsExactly` | src/lib/notification-dispatcher.ts:82-124 | the seller hears of every event, and the investors exactly of funded, settled, extended and matured ones |
| `DispatchSafety.ReachableStatesAreSound` | src/lib/notification-dispatcher.ts:202-294 | in every interleaving each pending id is in exactly one place, each accepted event is in one place or has one outcome, slots are counted and bounded, no wake-up is lost, runs are bounded, nobody waits on an idle dispatcher |
| `DispatchSafety.NextKeeps` | src/lib/notification-dispatcher.ts:202-294 | every single step keeps that invariant |
| `DispatchSafety.PumpStartsOldestFirst` | src/lib/notification-dispatcher.ts:224-237 | a pump starts the oldest queued jobs in order, one for every free slot |
| `DispatchSafety.RetryGoesToTheBack` | src/lib/notification-dispatcher.ts:261-266 | a retried job joins the back of the line, which then moves up into the free slots |
| `DispatchSafety.WaitersLeaveExactlyWhenIdle` | src/lib/notification-dispatcher.ts:214-222 | a waiting drain is released by a step if and only if that step leaves nothing queued, running or scheduled; a new drain resolves at once if and only if that holds already; and then nothing is pending |
| `DispatchProgress.CallbacksUseUp` | src/lib/notification-dispatcher.ts:224-294 | every callback of the event loop strictly decreases the measure of remaining work |
| `DispatchProgress.RunsAreBounded` | src/lib/notification-dispatcher.ts:224-294 | any run has at most 3 * maxAttempts callbacks per accepted event, for any failure pattern |
| `DispatchProgress.QuiescentMeansDone` | src/lib/notification-dispatcher.ts:214-294 | when no callback is left, every accepted event has an outcome, nothing is pending and every drain has resolved |
| `DispatchProgress.CanAlwaysFinish` | src/lib/notification-dispatcher.ts:224-294 | from every reachable state some run of callbacks, no longer than the measure, quiesces |
| `DispatchProgress.OutcomesAreFinal` | src/lib/notification-dispatcher.ts:236-294 | an outcome never changes, so no event is both delivered and dead-lettered |
| `DispatchProgress.OutcomesTellTheRuns` | src/lib/notification-dispatcher.ts:236-294 | over every run an event is delivered if and only if one of its runs resolved, which was then its last, and dead-lettered if and only if maxAttempts runs were rejected |
| `DispatchDelivery.InsertReaches` | src/lib/notification-dispatcher.ts:52-55 | after an insert that skips existing keys, a recipient has the event's row if and only if nobody else held its key |
| `DispatchDelivery.ColonsHideRecipients` | src/lib/notification-dispatcher.ts:309-317 | a family of user ids with colons for which a recipient gets no row |
| `DispatchDelivery.DeliveryReachesEveryone` | src/lib/notification-dispatcher.ts:296-319 | after a successful delivery a user has the event's row if and only if they had it before, are the seller, or are an investor and the event is funded, settled, extended or matured |
| `DispatchDelivery.NotificationsAreExactlyOnce` | src/lib/notification-dispatcher.ts:236-319 | over every run with retries, partial writes that then fail, re-enqueues and changing investor lists: at most one row per (event, user), every row of an accepted event and of its kind, a row for every recipient of every delivered event |
| `DispatchDelivery.DeliveredExactly` | src/lib/notification-dispatcher.ts:236-319 | over every run and for any user ids, a recipient of a delivered event has its row if and only if its dedupe key does not belong to another user |
| `DispatchDelivery.RowsAreUniqueAndKept` | src/lib/notification-dispatcher.ts:296-319 | without any assumption on ids, dedupe keys stay unique and rows are never lost over any run |
| `NotificationDispatcher.DedupedStore.InsertIgnoringDuplicates` | src/services/notification.service.ts:457-465 | the loop over an attempt's entries yields the store function's rows |
| `NotificationDispatcher.Dispatcher.Enqueue` | src/lib/notification-dispatcher.ts:202-212 | takes the enqueue step; true if and only if the id was not pending; the job goes to the end of the queue |
| `NotificationDispatcher.Dispatcher.Drain` | src/lib/notification-dispatcher.ts:219-222 | takes the drain step |
| `NotificationDispatcher.Dispatcher.Pump` | src/lib/notification-dispatcher.ts:224-234 | the loop equals the pump function |
| `NotificationDispatcher.Dispatcher.NotifyIfIdle` | src/lib/notification-dispatcher.ts:321-324 | releases all waiters if the size is zero, otherwise nothing |
| `NotificationDispatcher.Dispatcher.CollectRecipients` | src/lib/notification-dispatcher.ts:296-306 | the recipients are exactly the seller and, for funded, settled, extended and matured events, the investors, each once |
| `NotificationDispatcher.Dispatcher.DeliverySucceeds` | src/lib/notification-dispatcher.ts:238-247 | takes the success step |
| `NotificationDispatcher.Dispatcher.DeliveryFails` | src/lib/notification-dispatcher.ts:248-293 | takes the failure step: a retry while attempts are left, else the dead letter, with any rows of the attempt written before the failure |
| `NotificationDispatcher.Dispatcher.RetryFires` | src/lib/notification-dispatcher.ts:261-266 | takes the retry-timer step |
| `NotificationDispatcher.Dispatcher.RunSettles` | src/lib/notification-dispatcher.ts:228-232 | takes the `finally` step |
| `InvoiceLifecycle.Find` | src/lib/invoice-state-machine.ts:140-142 | finds a rule of the edge if and only if there is one |
| `InvoiceLifecycle.GraphIsAsDocumented` | src/lib/invoice-state-machine.ts:15-27 | the rule table has exactly the documented edges, and the allowed targets are exactly them |
| `InvoiceLifecycle.TerminalStatuses` | src/lib/invoice-state-machine.ts:136-138 | exactly settled, cancelled, rejected and failed are terminal |
| `InvoiceLifecycle.RefusalsExactly` | src/lib/invoice-state-machine.ts:62-196 | for every request: refused as an unknown edge, as not permitted, or for its precondition exactly when the documented edge, the role and ownership, or the precondition (at least 100 XLM, a deadline a day ahead and a document; a reason that is not blank; full funding) fails, in that order, and allowed exactly otherwise |
| `InvoiceLifecycle.AllowedEdge` | src/lib/invoice-state-machine.ts:82-129 | an allowed transition takes a documented edge to a strictly higher rank, by a permitted actor, with the edge's precondition met |
| `InvoiceLifecycle.RunsArePaths` | src/lib/invoice-state-machine.ts:288-327 | over every run of edits and attempts the commits are a contiguous path of allowed transitions ending at the stored status, and only grow |
| `InvoiceLifecycle.NoStatusTwice` | src/lib/invoice-state-machine.ts:82-129 | no run visits a status twice or returns to draft, and a history has at most four entries |
| `InvoiceLifecycle.HistoryIsAPath` | src/lib/invoice-state-machine.ts:304-315 | the stored history rows are such a path; every row keeps its trigger, its actor by id or else by wallet, and the trimmed reason; seller rows name the owner, rejection rows are the admin's and carry a reason |
| `InvoiceLifecycle.RejectionsAreRecorded` | src/lib/invoice-state-machine.ts:297-302 | a rejected invoice always carries the reason given with its last transition, without the white space around it |
| `InvoiceLifecycle.SettledWasPublishedAndFunded` | src/lib/invoice-state-machine.ts:62-122 | a settled invoice was published with at least 100 XLM, a deadline a day ahead and a document, and then funded by the system with at least the net amount |
| `InvoiceLifecycle.TerminalIsFinal` | src/lib/invoice-state-machine.ts:131-196 | a finished invoice never moves again under any requests |
| `InvoiceStateMachine.StateMachine.Transition` | src/lib/invoice-state-machine.ts:288-327 | refusals change nothing; a failing store leaves the database as it was but the invoice in memory moved; otherwise invoice and history change together |
| `InvoiceStateMachine.StateMachine.Dispatch` | src/lib/invoice-state-machine.ts:335-354 | effects run at most once per transition object, in order, and a throwing one stops no other |
| `LifecycleNotifications.EventsExactly` | src/lib/notification-dispatcher.ts:135-154 | a transition becomes an event exactly if it goes to funded, settled or rejected, or to published by the approval of an admin, and then the event of that kind, invoice and seller |
| `LifecycleNotifications.SellerIsToldOnce` | src/index.ts:92-97 | every committed transition reaches the seller through exactly one of the two wired effects, as the event it is news of or else with its new status, and exactly when that effect does not throw |
| `LifecycleNotifications.EventIdsAreDistinct` | src/lib/notification-dispatcher.ts:135-154 | dispatched transitions of one lifecycle or of two invoices never share an event id |
| `LifecycleNotifications.DistinctIdsAreAccepted` | src/lib/notification-dispatcher.ts:202-212 | in any interleaving, events with distinct ids are all accepted, in order |
| `LifecycleSystem.NextKeeps` | src/index.ts:85-97 | every step of the whole path keeps its invariant: distinct commits within sound histories, each told event accepted exactly once, everything accepted told or announced |
| `LifecycleSystem.DedupeNeverHidesATransition` | src/lib/notification-dispatcher.ts:335-343 | whatever the invoices do, however often and in whatever order transitions are dispatched, and whatever extensions and maturities are announced in between: the dispatcher accepts the news of every transition whose first dispatch enqueued, exactly once, and no other news; once quiet, that event is dead-lettered after all its attempts or its seller has the notification of its kind |
| `LifecycleSystem.ToldExactly` | src/lib/invoice-state-machine.ts:335-354 | the transitions told are exactly those whose first dispatch did not fail to enqueue |
| `LifecycleSystem.CommitsExactly` | src/lib/invoice-state-machine.ts:288-327 | the commits of a run are exactly what it adds to the histories |
| `LifecycleSystem.AnnouncedIsPending` | src/lib/notification-dispatcher.ts:202-212 | an announced event is pending afterwards, and accepted exactly if its id was not pending |
| `LifecycleSystem.EverythingToldCanBeConcluded` | src/lib/notification-dispatcher.ts:224-294 | from every reachable state of the whole path, callbacks alone, no more than the measure, conclude every transition told |
| `TtlCacheModel.Evict` | src/lib/ttl-cache.ts:206-214 | eviction leaves exactly the capacity if there was more, and changes no entry it keeps |
| `TtlCache.TtlCache.Create` | src/lib/ttl-cache.ts:49-85 | fails exactly on a non-positive TTL, a non-positive capacity or a negative sweep interval; the capacity defaults to 5000 and the interval to the TTL between a second and a minute |
| `TtlCache.TtlCache.Get` | src/lib/ttl-cache.ts:100-132 | answers exactly the live entries, expiry moment included; a hit moves to the end, an expired entry is dropped, a disabled cache answers nothing |
| `TtlCache.TtlCache.Set` | src/lib/ttl-cache.ts:134-153 | put at the end, then prune, then evict |
| `TtlCache.TtlCache.Delete` | src/lib/ttl-cache.ts:156-168 | drops the key |
| `TtlCache.TtlCache.InvalidatePrefix` | src/lib/ttl-cache.ts:171-178 | afterwards exactly the entries whose key does not start with the prefix are held, unchanged and in order |
| `TtlCache.TtlCache.PruneExpired` | src/lib/ttl-cache.ts:186-196 | afterwards exactly the entries that have not expired are held; the result counts the others |
| `TtlCache.TtlCache.EvictToCapacity` | src/lib/ttl-cache.ts:206-214 | the loop equals the eviction function and ends within capacity |
| `TtlCacheAgreement.GetsNeverDisagree` | src/lib/ttl-cache.ts:100-153 | over any run, on any clock, every `get` is a miss or what an unbounded timestamped map returns |
| `TtlCacheAgreement.CacheIsTheUnboundedMap` | src/lib/ttl-cache.ts:100-153 | on a monotone clock, while the live entries fit at every `set`, every `get` of the run equals the unbounded map's |
| `TtlCacheAgreement.SizeIsBounded` | src/lib/ttl-cache.ts:206-214 | after every public call the cache is within capacity and well formed |
| `TtlCacheAgreement.LruRetention` | src/lib/ttl-cache.ts:117-151 | after a `set`, a live key that nobody deletes is still found if fewer than `maxEntries` distinct other keys were set or hit since |
| `TtlCacheAgreement.LruRetentionAfterHit` | src/lib/ttl-cache.ts:117-125 | the same after a hit |
| `AclService.Service.GetAcl` | src/services/acl.service.ts:96-109 | with calls that do not interleave, the result is the repository's active list; a live cached snapshot is returned as it is, and the result stays cached |
| `AclService.Service.Handle` | src/services/acl.service.ts:132-157 | applies the update and leaves the cache coherent |
| `AclInterleaving.ServedSnapshotsWereTrue` | src/services/acl.service.ts:96-109 | with interleaved awaits every served list is one the repository gave, at most the TTL plus a call's time from read to caching ago |
| `AclInterleaving.EveryCallIsAnswered` | src/services/acl.service.ts:96-109 | over every run each call started is answered once, awaits the repository, or has yet to cache |
| `AclInterleaving.NextIsCurrentExactly` | src/services/acl.service.ts:124-157 | a step keeps the cached list and those in flight current if and only if it is not an update that changes the list while a read is in flight |
| `AclInterleaving.UndisturbedRunsAreCurrent` | src/services/acl.service.ts:124-157 | over any run without such an update, a read outside a pending invalidation is current |
| `AclInterleaving.StaleReadsExactly` | src/services/acl.service.ts:96-131 | from any state and moment, without further updates, some read that starts after all handlers have finished gets an old list if and only if an old list is in flight, or cached and live with no invalidation due |
| `AclInterleaving.DisturbedReadIsStale` | src/services/acl.service.ts:96-109 | such states are reached, for any lists and TTL: the old list is served after the handler has finished |
| `SlidingWindow.RedisKey.CheckSlidingWindow` | src/lib/redis-sliding-window.ts:34-87 | one script evaluation and its result: remaining count, the least whole number of seconds, at least one, that covers the hint, and the key's expiry after an admission |
| `SlidingWindow.NoWindowExceedsTheLimit` | src/lib/redis-sliding-window.ts:12-37 | over any run on a non-decreasing clock every interval (t - windowMs, t] holds at most maxRequests admissions |
| `SlidingWindow.DecisionsAreExact` | src/lib/redis-sliding-window.ts:12-37 | after any run the next request is admitted if and only if fewer than maxRequests admissions lie in the window that ends with it, and the reply counts them and it |
| `SlidingWindow.RetryHintIsExact` | src/lib/redis-sliding-window.ts:19-30 | after a denial, with nothing else admitted, a request is admitted after a wait if and only if the limit is positive and the wait reaches the hint |
| `SlidingWindow.ExpiryNeverChangesADecision` | src/lib/redis-sliding-window.ts:34-36 | the key's expiry changes no reply, even if the server's clock drifts from the callers' within two seconds |
| `SlidingWindow.RedisNeverExceedsTheLimit` | src/lib/redis-sliding-window.ts:12-37 | the window bound for the key as Redis keeps it, expiry and second clock included |
| `WalletRateLimiter.Limiter.HandleRequest` | src/middleware/rate-limit-wallet.middleware.ts:44-79 | takes the decision step, refuses exactly a missing or empty address, and gives a denial the least number of seconds that reaches the end of the window |
| `WalletRateLimiter.Limiter.CleanUpStale` | src/middleware/rate-limit-wallet.middleware.ts:35-42 | the deleting loop keeps exactly the entries younger than the window, unchanged |
| `WalletRateLimiter.AtMostTwiceTheLimitLessOne` | src/middleware/rate-limit-wallet.middleware.ts:52-78 | any half-open interval of length windowMs admits at most 2 * limit - 1 requests of a wallet |
| `WalletRateLimiter.TheBoundIsReached` | src/middleware/rate-limit-wallet.middleware.ts:52-78 | for every limit and every window longer than a millisecond that bound is reached, with a limit below one taken as one |
| `WalletRateLimiter.DenialsAreEarned` | src/middleware/rate-limit-wallet.middleware.ts:60-75 | after any run a request is denied only if the limit was admitted within the window that ends with it |
| `WalletRateLimiter.RetryAfterIsLeast` | src/middleware/rate-limit-wallet.middleware.ts:60-75 | the Retry-After of a denial is the least number of whole seconds after which a request is admitted |
| `WalletRateLimiter.CleanUpIsInvisible` | src/middleware/rate-limit-wallet.middleware.ts:35-42 | cleanups at any moments leave every decision unchanged |
| `WalletRateLimiter.CleanUpsChangeNoAdmission` | src/middleware/rate-limit-wallet.middleware.ts:35-42 | nor do they change when any wallet is admitted |
| `WalletRateLimiter.EveryWalletIsBounded` | src/middleware/rate-limit-wallet.middleware.ts:35-78 | the bound for each wallet in a run of all wallets' requests and the limiter's own cleanups |
| `PaymentClaims.ExecExtends` | src/migrations/1755000000000-CreateStellarPaymentClaims.ts:92-127 | whatever the statement, a claim's owner never changes and no claim disappears |
| `PaymentClaims.KeysExactly` | src/migrations/1755000000000-CreateStellarPaymentClaims.ts:107 | two named operations share a key if and only if their indices are equal and their hashes are equal up to ASCII case; a row without hash or index has none |
| `PaymentClaims.InsertsCommitExactly` | src/migrations/1755000000000-CreateStellarPaymentClaims.ts:92-169 | an insert commits if and only if its id is free, its link exists and nobody else has claimed its operation under any spelling, and what it then changes |
| `PaymentClaims.UpdateInvestmentExactly` | src/migrations/1755000000000-CreateStellarPaymentClaims.ts:157-162 | when an update of an investment commits, to the last condition, and what it then changes |
| `PaymentClaims.UpdateTransactionExactly` | src/migrations/1755000000000-CreateStellarPaymentClaims.ts:164-169 | the same for a transaction, whose link is watched as well |
| `PaymentClaims.DeletedTransactionsStayClaimed` | src/migrations/1755000000000-CreateStellarPaymentClaims.ts:92-127 | deleting a transaction never fails and gives no operation back |
| `PaymentClaims.ExecKeepsExactly` | src/migrations/1755000000000-CreateStellarPaymentClaims.ts:129-169 | a committed statement keeps every row in agreement with its claim if and only if it is not an unwatched change of the primary key |
| `PaymentClaims.DeleteInvestmentExactly` | src/migrations/1731513600000-InitialSchema.ts:232 | an investment can be deleted if and only if no referring transaction names an operation; then its transactions lose the link and nothing else changes |
| `PaymentClaims.RunsKeepTheLedger` | src/migrations/1755000000000-CreateStellarPaymentClaims.ts:92-169 | every run of statements without an unwatched change of a primary key, failing ones rolled back, keeps the agreement and only adds claims |
| `PaymentClaims.OneOwnerForever` | src/migrations/1755000000000-CreateStellarPaymentClaims.ts:92-169 | over such runs no operation ever has two owners, even after the rows that named it are gone; hashes that differ in case are one operation |
| `PaymentClaims.TwoOwnersExactly` | src/migrations/1755000000000-CreateStellarPaymentClaims.ts:129-169 | after a committed statement some run the triggers see all of gives an operation two owners if and only if the statement was an unwatched change of a primary key |
| `PaymentClaims.MigrationExactly` | src/migrations/1755000000000-CreateStellarPaymentClaims.ts:18-89 | the migration succeeds if and only if no operation, however its hash is spelled, has two owners, and then every row agrees with its claim |
| `PaymentLedger.Ledger.ClaimPaymentOperation` | src/migrations/1755000000000-CreateStellarPaymentClaims.ts:92-127 | inserts, or accepts an equal claim, or raises and changes nothing, as the claim function says |
| `PaymentLedger.Ledger.InsertInvestment` | src/migrations/1755000000000-CreateStellarPaymentClaims.ts:129-162 | the trigger's claim and the row, or everything as before |
| `PaymentLedger.Ledger.UpdateInvestment` | src/migrations/1755000000000-CreateStellarPaymentClaims.ts:157-162 | the trigger fires only for the watched columns |
| `PaymentLedger.Ledger.InsertTransaction` | src/migrations/1755000000000-CreateStellarPaymentClaims.ts:143-169 | the trigger's claim and the row, or everything as before |
| `PaymentLedger.Ledger.UpdateTransaction` | src/migrations/1755000000000-CreateStellarPaymentClaims.ts:164-169 | the trigger fires only for the watched columns, the investment link among them |
| `PaymentLedger.Ledger.DeleteInvestment` | src/migrations/1731513600000-InitialSchema.ts:232 | unlinks the referring transactions row by row, firing their triggers, then deletes; rolled back as a whole |
| `LogNormalizer.SanitizeValue` | src/observability/logger.ts:22-53 | the recursion over the shared set equals the tree function |
| `LogNormalizer.NormalizeLogMetadata` | src/observability/logger.ts:55-82 | the record for every kind of metadata |
| `LogNormalizer.TreeMatches` | src/observability/logger.ts:22-53 | the tree is true to the graph: bigints as text, other primitives as they are, every own entry of an object or array in order, every entry of an error under a key not taken; a placeholder stands exactly for an object seen before or deeper than 8 |
| `LogNormalizer.NormalizedMatches` | src/observability/logger.ts:55-82 | which record each kind of metadata becomes, true to it |
| `LogNormalizer.NormalizedIsSmall` | src/observability/logger.ts:55-82 | on any graph, cyclic or shared, the output has bounded height and at most 5 + 8 nodes per edge |
| `LogNormalizer.NormalizedExpandsOnce` | src/observability/logger.ts:26-27 | every object is expanded at most once, except that an array given as the metadata may be expanded a second time |
| `LogNormalizer.RootExpandsTwiceExactly` | src/observability/logger.ts:71-75 | an array that leads to at most eight objects is expanded that second time if and only if it is on a cycle |
| `LogNormalizer.UncutRootExpandsTwiceExactly` | src/observability/logger.ts:22-75 | the same for an array of any size whose walk the depth limit does not cut |
| `LogNormalizer.RingExpandsTwiceExactly` | src/observability/logger.ts:28 | a ring of arrays is on a cycle whatever its length, and expanded twice if and only if its length is at most eight |
| `LogNormalizer.SelfContainingRootExpandsTwice` | src/observability/logger.ts:71-75 | an array of any size that contains itself is expanded twice, if the items before that one do not lead back to it |
| `LogNormalizer.RootOffEveryCycleExpandsOnce` | src/observability/logger.ts:71-75 | an array of any size on no cycle is expanded once |
| `LogNormalizer.SharedIsMarkedCircular` | src/observability/logger.ts:26-27 | any later reference to an object, cyclic or not and at any depth, becomes the circular placeholder |
| `LogMetadata.SanitizeMetadataValue` | src/observability/logger.ts:89-119 | the recursion over the shared set equals the tree function |
| `LogMetadata.TreeMatches` | src/observability/logger.ts:89-119 | the tree is true to the graph, errors reduced to their three fields; the placeholders stand exactly for objects at depth zero or seen before |
| `LogMetadata.SanitizedIsSmall` | src/observability/logger.ts:89-119 | objects other than errors are expanded at most once, height is bounded, size is linear in the edges |
| `LogMetadata.KeysAreBounded` | src/observability/logger.ts:121-140 | the first 64 entries of the root are shown, in order, and the rest are counted |
| `ProRata.ReturnIsExactFloor` | src/lib/investor-return.ts:7-23 | fails exactly on the guarded operands, with the first guard's error, else the share is the exact proportion rounded down |
| `ProRata.SplittingLosesLessThanOnePerPart` | src/lib/investor-return.ts:7-23 | any split of a position into parts never gains and loses less than one unit per part |
| `ProRata.ProceedsAreConserved` | src/lib/investor-return.ts:7-23 | the returns of a fully accounted invoice sum to at most the proceeds and fall short by less than the number of investors |
| `ProRata.DustBoundIsReached` | src/lib/investor-return.ts:7-23 | for every number of investors that shortfall occurs |
| `ProRata.SharesAreMonotone` | src/lib/investor-return.ts:7-23 | shares are monotone in investment and proceeds |
| `DecimalStrings.ParseAfterPrint` | src/lib/decimal-bigint.ts:8-29 | parsing a printed amount gives every integer back, negative ones included |
| `DecimalStrings.PrintShowsTheAmount` | src/lib/decimal-bigint.ts:22-29 | a printed amount shows ten-thousandths with four decimals, and a minus exactly if it is negative |
| `DecimalStrings.WithoutDot` | src/lib/decimal-bigint.ts:8-17 | a text without a dot is a whole amount |
| `DecimalStrings.WithoutWhole` | src/lib/decimal-bigint.ts:8-17 | without digits before the dot the whole part is zero |
| `DecimalStrings.SecondDotEnds` | src/lib/decimal-bigint.ts:8-17 | what follows a second dot is ignored |
| `DecimalStrings.BigIntReads` | src/lib/decimal-bigint.ts:14 | blank text, signed decimals and the three prefixes are read as `BigInt` reads them |
| `DecimalStrings.BigIntRefuses` | src/lib/decimal-bigint.ts:14 | any other text is refused |
| `DecimalStrings.PrintAfterParse` | src/lib/decimal-bigint.ts:8-29 | printing a parsed canonical string gives it back |
| `DecimalStrings.ExtraDigitsTruncate` | src/lib/decimal-bigint.ts:8-17 | with any number of fraction digits the result is the exact value times 10000 truncated toward zero |
| `StellarFormat.TextShowsTheAmount` | src/lib/stellar-format.ts:11-29 | for every number of decimals the text shows the amount rounded toward zero to that many, exactly at seven |
| `StellarFormat.FullPrecisionIsInjective` | src/lib/stellar-format.ts:11-29 | at seven decimals different amounts print differently |
| `CircuitBreaker.Breaker.TryBegin` | src/lib/circuit-breaker.ts:24-31 | always admits unless open, changing nothing; when open, admits exactly from the timeout on, and then turns half-open |
| `CircuitBreaker.Breaker.Succeeded` | src/lib/circuit-breaker.ts:43-52 | the success step |
| `CircuitBreaker.Breaker.Failed` | src/lib/circuit-breaker.ts:54-61 | the failure step |
| `CircuitBreaker.EveryRunIsSound` | src/lib/circuit-breaker.ts:24-61 | over every interleaving: `failures` is the trailing failure run, a closed breaker is below the threshold without trial successes, a half-open one below its own, and a call is admitted if and only if the breaker is not open or the latest failure lies back at least the timeout |
| `CircuitBreaker.HalfOpenEndsExactly` | src/lib/circuit-breaker.ts:43-61 | a half-open breaker closes if and only if the consecutive trial successes reach the threshold, and opens if and only if the failure run does |
| `CircuitBreaker.OpenEndsExactly` | src/lib/circuit-breaker.ts:24-61 | an open breaker is left exactly by a call that it admits, for half-open; a beginning call moves no other |
| `CircuitBreaker.ClosedOpensExactly` | src/lib/circuit-breaker.ts:54-61 | a closed breaker opens if and only if the failure run reaches the threshold |
| `Metrics.MetricsRegistry.RecordHttpRequest` | src/observability/metrics.ts:41-74 | the search loop stores the observation in its first fitting bucket |
| `Metrics.MetricsRegistry.RenderHistogram` | src/observability/metrics.ts:93-112 | the rendering loop yields the cumulated counts |
| `Metrics.RenderingCountsObservations` | src/observability/metrics.ts:41-112 | after any history each rendered bucket counts the key's observations at or below its bound, buckets never decrease, +Inf is the count |
| `Metrics.SeparableKeysAreInjective` | src/observability/metrics.ts:32-34 | keys of labels without a separator in method and status class are injective |
| `Metrics.StatusClassesArePipeFree` | src/middleware/request-observability.middleware.ts:68 | the status class the middleware makes of any code holds no separator |
| `Metrics.SharedKeysExactly` | src/observability/metrics.ts:32-34 | with such classes two label sets share a key if and only if they are equal or, within one class, one method continues the other across a separator at the expense of the route; no method the HTTP parser passes holds one |
| `Metrics.EveryLabelSetIsCounted` | src/observability/metrics.ts:41-112 | for separable labels each bucket counts exactly that label set's observations, under those labels |

## Left out

- Redis mode of the cache, its sweeper timer, its namespace prefix and JSON encoding: keys and values are taken as they are; the sweeper's only effect is `PruneExpired`, which may happen anywhere in a run.
- Atomic sections: a run of the dispatcher is split at its awaits, and the invoice, its history row and the ledger statements are transactions on freshly loaded rows, so two transitions racing on a stale invoice are not modelled.
- The retry delay `retryDelayMs * 2^(n-1)`: retry timers fire in any order, which covers every delay.
- Message texts, titles and log lines; only which notification goes to whom is kept.
- A deadline that is not a valid date makes `toISOString` throw while the event id is computed; deadlines are given by their ISO text here.
- DispatchDelivery.NotificationsAreExactlyOnce: assumes user ids without colons, because with them it is false (see `ColonsHideRecipients`); `DeliveredExactly` has no such assumption.
- LifecycleSystem.DedupeNeverHidesATransition: assumes the same of user and invoice ids; announced events with explicit ids are not among its happenings, since an explicit id may equal a transition's.
- PaymentClaims.OneOwnerForever: is about runs without unwatched changes of a primary key, because after one it is false (see `TwoOwnersExactly`).
- Metrics.EveryLabelSetIsCounted: is about methods without a `|`, which are all the HTTP parser passes; `SharedKeysExactly` says what the others would do.
- The settlement-intent gate on cancellation (`src/lib/invoice-state-machine.ts:228-255`): the code that creates intents is not part of this model.
- The second transition table of `src/models/Invoice.model.ts:26-35`, which is a different graph.
- Text parsing of decimal amounts on invoices: amounts are reals, and a malformed one is not modelled.
- SlidingWindow.NoWindowExceedsTheLimit: the fail-open branch of `checkSlidingWindow` and limits that change over time are not modelled.
- Limiters that share one named store with different configurations.
- Multi-row statements and concurrent writers during the migration; `upper` is ASCII.
- Cascading deletes from invoices and users into investments, which are sequences of the modelled deletions.
- LogNormalizer.RootExpandsTwiceExactly: an array that leads to more than eight objects may lie on a cycle that the depth limit hides (see `RingExpandsTwiceExactly`); for those the equivalence is that of `UncutRootExpandsTwiceExactly`, and `RootOffEveryCycleExpandsOnce` holds without any condition.
- Getters that throw and `__proto__` keys in sanitised objects.
- Number arguments of `decimalStringToScaledBigInt` and fractional `decimals` of `stroopsToXlm`.
- Floating-point rounding of the histogram's sum and durations that are not numbers; label escaping and custom counters.
- Event decoding, `resolveAction` and log paging of the ACL service: pattern matching and clamping without state.
- Controllers, routes, configuration, authentication and the Stellar SDK.
