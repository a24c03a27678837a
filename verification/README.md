# Verified model of the gateway's stateful core

The gateway relays requests to upstream channels and charges users for them. This project models the parts of it whose
guarantees span several functions or whole runs, in Dafny 4.11, and proves those guarantees. `dafny verify dfyconfig.toml`
checks everything.

| part | files | main results |
|---|---|---|
| rate limiting | `SlidingLog`, `MemoryRateLimiter`, `RedisRateLimiter`, `RateLimitRuns` | both forms of the limiter refine an exact, never-pruned sliding log over whole runs |
| channel scheduling | `Channels`, `AbilityTable`, `ChannelCache`, `ChannelSelection`, `SqlSelection`, `Distributor`, `RelayRetry` | the rebuilt index is exact, the cached selection equals the SQL selection, the placing and retry loops terminate, are optimal and complete |
| external billing | `TokenBilling` | over any run with any failures, the two quotas a token is charged to are what its transactions stand for plus a drift known call by call; exactly which kinds of failure can make them differ |
| request costs | `CostUpsert`, `CostDedup` | the lock-free upsert under every interleaving, with pruning going on, and when it loses no call; the two clean-ups delete the same rows |
| budget pools | `PoolLedger` | books, replayed log and conservation of quota, for every amount; when the bounds are kept |
| pricing migration | `PricingKeys`, `Pricing`, `PricingMigration`, `PricingSteps`, `MigrationRuns` | the exact condition under which running the migration twice is running it once |
| sticky sessions | `StickyKeys`, `StickyStore` | a lazily purged store answers as a history that is never forgotten; keys never collide |
| cache analytics | `Analytics`, `CacheAnalytics` | every part of the report adds up; the overall rate lies between the daily ones |
| shared | `Wrappers`, `Int64`, `Text`, `Sorting` | |

Code that updates state in place is modelled by classes and methods with loops, each proved against a specification on
values; the properties are then lemmas about that specification. Clocks, random draws, failures of the database or the
upstream and the answers of upstream channels are parameters, so every theorem holds for all of them. Go's `int64` is
modelled explicitly where a number can overflow (the expiry of a hold, a sticky timeout in nanoseconds); text to lower
case is ASCII only; money amounts given as `float64` are exact reals.

## What the code does that its reader might not expect

Each point is a theorem below, with the exact condition.

- The read-only precheck of a channel's limit and the limiter for one-time passwords subtract a wall-clock stamp from a
  real instant. They agree with the request limiter exactly when the server's zone is UTC (`PrecheckAgreesIffUtc`).
- The in-memory limiter counts whole seconds, Redis milliseconds. They answer a run alike exactly when no attempt of it
  meets a deciding stamp that is `duration` cut seconds old but not yet as many seconds (`SameAnswersIff`,
  `AnswersDifferBelowASecond`); on whole-second clocks none does (`SameAnswers`).
- A lowered limit does not shorten the queues of the in-memory limiter. It decides a request exactly unless the window
  begins between the head of a longer queue and the stamp that the lowered limit asks about (`HonoursLimitIff`), and
  decides it whenever it comes exactly when the queue is no longer than the limit, the two stamps coincide, or the latter
  has left the window (`HonoursLimitFromNowOnIff`, `LoweredLimitIsPassed`). Redis takes the lowered limit on with the next
  accepted request (`LoweredLimitTakesHold`).
- The limiter's own functions let the first request of a key through even with a limit of zero, so their window bound
  holds exactly for positive limits (`BoundedIffLimitPositive`). Every caller in the program returns early instead of
  passing zero.
- The cache skips the first tier only when its priority is positive, SQL always does (`SameLowerTiersIff`,
  `LowerTierIsMissed`, `LowerTierIsMissedOnce`). The pass below the first tier that follows a failed first pass can never
  succeed (`PlaceRequest`).
- A 413 answer sets the number of retries whatever was decided before, even for a request pinned to one channel
  (`PinnedIsRetriedIff`, `PinnedIsRetried`).
- Reserving quota charges the token first and its user second, and reports a failure of the second without undoing the
  first; settling charges the user first and never looks at whether that succeeded. Which calls put the charges off what
  the rows stand for, and by how much, is exact (`PreBalancedIff`, `SettleBalancedIff`, `TornReservation`,
  `UnpaidSettlement`). Over whole runs a token stays in balance exactly when the kinds of failure that can occur are
  harmless to it: no failing write of its user's quota, none of its own if it is limited, and no failing compensation
  unless rows can always be written (`StaysBalancedIff`). With a working database the guards on the balances decide: a
  reservation is always refused in time (`ReservationNeverShort`), a settlement keeps the balance exactly when there is
  nothing to pay, the user can pay it, or neither the user nor the limited token can (`SettlementShortIff`,
  `ShortUserPaysNothing`).
- The start-up check asks only for a positive maximum of the timeout of a hold. No request can make the expiry wrap
  around exactly when that maximum leaves room on the 64-bit clock (`NoExpiryWrapsIff`, `LargestTimeoutWraps`); a hold
  whose expiry did wrap is never settled by a sweep (`PendingForEver`).
- Old request costs are pruned at any time, by a stamp that is taken before the row is inserted. No call of the cost
  upsert is lost, in any run, exactly when creations do not fail for other reasons than the unique index and the longest
  call together with the longest delay between stamp and insertion takes at most a week (`NothingLostIff`): a week when
  rows are stamped as they are inserted, half a week when all that is known is how long a call takes. The losing runs are
  `PruningLosesCall` and `FailedCreationLosesCall`; a call is lost only through its own failed creation or the pruning of
  its own row (`LostNeedsDisturbance`).
- An administrator's top-up allocates whatever amount it is given, as it is not validated on that path. Usage, rows and
  log agree for every amount and wealth is kept, but the bounds of the books survive an allocation exactly when the
  amount is positive (`AllocateFromPool`, `InBoundsAfterAllocateIff`, `NegativeAllocation`).
- Rolling over a pool that can be closed keeps wealth exactly when it had nothing left or was active just if its successor
  is created (`RollOverKeepsWealthIff`): a closed pool's balance is created anew, and a failed creation loses an active
  one's (`RollOverChangesWealth`). A carried balance whose opening entry cannot be written is missing from the new log;
  allocating to a user who does not exist takes the amount out of circulation (the contracts of `RollOverPool` and
  `AllocateFromPool`).
- Recalling everything from a pool drains it exactly when all that is out sits in the first rows of users who can cover
  it (`DrainedIff`): a user with quota out in a second row keeps it (`SecondRowStaysOut`).
- The pricing migration is idempotent exactly when no price is hidden (`IdempotentIff`): a channel whose ratio column holds
  a value of the wrong type and whose priced names all run together with limited ones when trimmed can be priced by the
  second run only (`UncleanColumnHides`).
- Two cost clean-ups keep every row that ties for the newest marker; the unique index can then not be created
  (`IndexPossibleIff`, `TieBlocksIndex`).
- Breakdown keys of the cache report belong to two sources with given formats exactly when one format is a channel id, or
  ends in one after a `|`, and continues with `|` and the other format (`SourceKeysCollideIff`). The program writes no
  format that holds a `|`, so every entry it reports sums its own source (`WrittenEntriesSumTheirSource`).
- The overall cache hit rate stays between the daily rates whatever the other days are exactly when a day has prompt
  tokens or no cached ones (`SensibleIff`, `CachedWithoutPrompts`).
- A sticky timeout above 9223372036 seconds wraps the duration; up to there entries live exactly as long as configured
  (`LivesAsConfiguredIff`, `LongestTimeoutExpiresAtOnce`).
- The rebuilt channel index lists by a joined key. It is up to date exactly when every enabled channel that has a usable
  row reading like a group and a model it declares, with a colon in between, also has a usable row for these two
  (`RebuiltIsFreshIff`). A channel of the groups `a` and `a:b` with the models `c` and `b:c` whose row for `a` and `b:c` is
  suspended stays listed there through its row for `a:b` and `c` (`ListedThoughSuspended`, `MixedExists`).

## Model

| member | source | states |
|---|---|---|
| SlidingLog.QueueDecides | common/rate-limit.go:50-75 | comparing the oldest stamp of a bounded queue answers the question "fewer than max accepted in the window" asked of the whole history |
| SlidingLog.AcceptKeeps | common/rate-limit.go:56-73 | appending, and dropping the head of a full queue, keeps the queue a faithful digest of the history |
| SlidingLog.ForgetKeeps | common/rate-limit.go:32-46 | a queue whose newest stamp has left the window may be deleted without changing any later answer |
| SlidingLog.AcceptKeepsBound | common/rate-limit.go:50-75 | accepting under the sliding rule never overfills any half-open window, wherever it starts |
| MemoryRateLimiter.RequestRefines | common/rate-limit.go:50-75 | one request gets the answer of the never-pruned log and leaves a faithful queue |
| MemoryRateLimiter.SweepRefines | common/rate-limit.go:32-46 | one round of the sweep leaves every key faithful when the expiration is at least the duration |
| MemoryRateLimiter.AnswersUnderAnyLimit | common/rate-limit.go:50-75 | whatever limits a key was asked with before, it is answered as the never-pruned log answers under the limit in force |
| MemoryRateLimiter.HonoursLimitIff | common/rate-limit.go:50-75 | a request is answered as the log answers under the limit given, lowered or not, if and only if the window does not begin between the head of a longer queue and the stamp that limit asks about |
| MemoryRateLimiter.HonoursLimitFromNowOnIff | common/rate-limit.go:50-75 | the next request is so answered whenever it comes if and only if the queue is no longer than the limit, or its head and that stamp coincide, or that stamp has left the window |
| MemoryRateLimiter.LoweredLimitIsPassed | common/rate-limit.go:50-75 | two requests under a limit of 2, then one accepted that the lowered limit of 1 forbids |
| MemoryRateLimiter.LengthStays | common/rate-limit.go:56-73 | a queue at or above the limit keeps its length whatever the answer |
| MemoryRateLimiter.KeyFaithfulAfterRequest | common/rate-limit.go:50-75 | a key stays faithful and its windows stay within the highest limit it was asked with, across a request under any limit |
| MemoryRateLimiter.StoreAfterRequest | common/rate-limit.go:50-75 | a request on one key keeps every key of the store faithful |
| MemoryRateLimiter.FaithfulAfterSweep | common/rate-limit.go:32-46 | a sweep of the whole store keeps every key faithful, including those it deletes |
| MemoryRateLimiter.SweptIs | common/rate-limit.go:37-43 | a sweep drops exactly the keys whose newest stamp is older than the expiration |
| MemoryRateLimiter.InMemoryRateLimiter.Request | common/rate-limit.go:50-75 | accepts exactly when fewer accepted requests than the limit in force lie in (now-duration, now], which is the given limit unless it was lowered; touches no other key |
| MemoryRateLimiter.InMemoryRateLimiter.Offer | common/rate-limit.go:56-68 | the branches on a known key compute the specified step |
| MemoryRateLimiter.InMemoryRateLimiter.CanRequest | common/rate-limit.go:80-95 | predicts the answer of a request at the same instant without changing anything |
| MemoryRateLimiter.InMemoryRateLimiter.ClearExpiredItems | common/rate-limit.go:32-46 | deletes exactly the idle keys; the accepted history, hence every later answer, is unaffected |
| MemoryRateLimiter.InMemoryRateLimiter.DeleteIdleKeys | common/rate-limit.go:37-43 | the loop over the keys removes exactly those empty or older than the expiration |
| RedisRateLimiter.RequestMirrors | middleware/rate-limit.go:43-83 | the live list is the reversed queue before and after a request, and gives the queue's answer |
| RedisRateLimiter.RequestRefines | middleware/rate-limit.go:43-83 | one request on the list gets the answer of the millisecond log in any zone, key expiry included |
| RedisRateLimiter.WholeSecondsIs | middleware/rate-limit.go:66-76 | a duration is cut to whole seconds toward zero |
| RedisRateLimiter.LoweredLimitTakesHold | middleware/rate-limit.go:43-83 | a lowered limit cuts the list down with the next accepted request |
| RedisRateLimiter.PrecheckAgreesIffUtc | middleware/rate-limit.go:162-219 | the precheck, and likewise the one-time-password limiter, agrees with the limiter on every list and instant if and only if the zone offset is zero |
| RedisRateLimiter.RedisLimiter.Request | middleware/rate-limit.go:43-83 | the list commands perform the specified step on one key and leave the other keys |
| RedisRateLimiter.RedisLimiter.WouldChannelRateLimitBlock | middleware/rate-limit.go:162-219 | blocks exactly when a positive limit is full with a too recent oldest stamp, reading only |
| RateLimitRuns.MemoryRefinesIdeal | common/rate-limit.go:32-75 | every run of requests and sweeps is answered as the never-pruned log answers it |
| RateLimitRuns.RedisRefinesIdeal | middleware/rate-limit.go:43-83 | every run on the Redis list is answered as the millisecond log answers it |
| RateLimitRuns.IdealInMillis | middleware/rate-limit.go:66-75 | the log answers alike in seconds and in milliseconds on a whole-second clock |
| RateLimitRuns.SameAnswers | middleware/rate-limit.go:43-106 | on a whole-second clock the two forms give the same answers in every run, whatever is swept or expires, in any zone |
| RateLimitRuns.StepAgreesIff | middleware/rate-limit.go:66-75 | one attempt is answered alike in cut seconds and in milliseconds if and only if the deciding stamp is not split by the cut |
| RateLimitRuns.SameAnswersIff | middleware/rate-limit.go:43-106 | on any clock the two forms give the same answers in a run if and only if no attempt of it splits, whatever is swept or expires, in any zone |
| RateLimitRuns.AnswersDifferBelowASecond | middleware/rate-limit.go:66-75 | a run that splits, on which the two forms differ |
| RateLimitRuns.IdealIsBounded | common/rate-limit.go:50-75 | the answers of the log never overfill a window, over whole runs |
| RateLimitRuns.BoundedIffLimitPositive | common/rate-limit.go:50-75 | no window is overfull on any run with any sweeps if and only if the limit is positive |
| AbilityTable.DeDuplication | model/ability.go:34-53 | the names without repetition |
| AbilityTable.NewRowIs | model/ability.go:17-53 | a new row is enabled exactly when its channel is, is not suspended, and has the priority of the channel, or 0 when that is missing |
| AbilityTable.Table.Create | model/ability.go:34-53 | insertion is all or nothing and fails exactly on a conflict of the primary key or a failure of the database |
| AbilityTable.Table.AddAbilities | model/ability.go:34-53 | adds exactly one row per declared group and model, a missing priority as 0, and fails exactly when a group repeats, a row exists or the database fails |
| AbilityTable.Table.UpdateAbilities | model/ability.go:61-74 | replaces the channel's rows by fresh ones without suspension; with a repeated group or a failed insertion the old rows are gone all the same |
| AbilityTable.Table.DeleteAbilities | model/ability.go:55-57 | removes exactly the rows of the channel, or nothing when the database fails |
| AbilityTable.Table.UpdateAbilityStatus | model/ability.go:76-78 | enables or disables exactly the rows of one channel, or nothing when the database fails |
| AbilityTable.Table.SuspendAbility | model/ability.go:134-154 | suspends one ability until the given time and changes nothing else; exact condition of success |
| AbilityTable.AddKeepsSync | model/ability.go:34-53 | adding the rows of a channel keeps rows and channels in sync if and only if they were |
| AbilityTable.UpdateRestoresSyncIff | model/ability.go:61-74 | whatever a channel has become, recreating its rows brings rows and channels in sync, failed insertions included, if and only if the other channels' rows were; a failed deletion changes nothing |
| AbilityTable.SwitchKeepsSync | model/ability.go:76-78 | a new status of a channel together with the switch of its rows keeps rows and channels in sync |
| AbilityTable.SuspendKeepsSync | model/ability.go:134-154 | a suspension keeps rows and channels in sync if and only if they were |
| AbilityTable.ServesWhenSuspended | model/ability.go:134-154 | a suspended ability serves at no time up to the end of the suspension and at every later time, and no other ability is affected |
| AbilityTable.ServesWhenRecreated | model/ability.go:61-74 | recreating the rows of a channel lifts the suspension at once |
| ChannelCache.AbilityKeyDecodes | model/cache.go:327-350 | ability keys of groups that do not run into each other determine group, model and channel, even with colons in model names |
| ChannelCache.SameKeyIff | model/cache.go:327-350 | two keys are equal if and only if the ids are and group and model read the same with the colon in between |
| ChannelCache.KeysCollideIff | model/cache.go:327-350 | keys of two groups can coincide exactly when one continues the other past a colon |
| ChannelCache.ValidAbilityKeys | model/cache.go:308-334 | the set of keys of enabled, unsuspended abilities of enabled channels |
| ChannelCache.ListChannel | model/cache.go:338-359 | enters one channel under exactly the groups and models it declares with a valid key |
| ChannelCache.SortModels | model/cache.go:361-369 | every list is rearranged by nonincreasing priority |
| ChannelCache.SortIndex | model/cache.go:361-369 | sorting loses and adds no channel anywhere in the index |
| ChannelCache.KeyedUnlessAmbiguous | model/cache.go:307-375 | every serving channel has its key in use; a channel listed without serving owes its key to a row whose group runs into its own |
| ChannelCache.ListsIffServes | model/cache.go:307-375 | when no group names run into each other, a channel is listed if and only if it serves |
| ChannelCache.KeyedIff | model/cache.go:307-375 | a channel is listed if and only if it is enabled, declares the two and has a usable row of its own that reads like them; it serves if and only if that row is theirs |
| ChannelCache.RebuiltIsFreshIff | model/cache.go:307-375 | a rebuilt index is up to date if and only if every enabled channel with a usable row reading like a declared pair has a usable row for that pair; group names that do not run into each other suffice |
| ChannelCache.ListedThoughSuspended | model/cache.go:307-375 | in every table with such a channel, it is listed under a suspended pair and the index is not up to date |
| ChannelCache.MixedExists | model/cache.go:307-375 | there is such a channel, with the groups a and a:b |
| ChannelCache.Cache.InitChannelCache | model/cache.go:307-375 | the rebuilt index lists, sorted by priority, exactly the enabled channels that declare group and model with a key in use, which are those that serve unless group names run into each other |
| ChannelCache.Cache.GetChannelsFromCache | model/cache.go:385-401 | returns the list, and an error exactly when it is empty or the memory cache is disabled |
| Channels.SupportsModelIff | model/channel.go:476-524 | a channel supports a model exactly when the name is blank, or it names no model, or it names this one or the one it maps it to, whatever the case and the white space |
| ChannelSelection.MayFailIff | model/cache.go:554-609 | the selection can return nothing exactly when no candidate is left or there is no positive first tier with something below it |
| ChannelSelection.CandidateIff | model/cache.go:518-551 | after a 413 a channel stays a candidate exactly when it has not failed and no channel that failed has its MaxTokens for the model; otherwise exactly when it has not failed |
| ChannelSelection.TriedSizesIff | model/cache.go:526-539 | the sizes that have failed are exactly the MaxTokens of the excluded cached channels |
| ChannelSelection.ExcludeChannels | model/cache.go:518-524 | the filter keeps exactly the channels not excluded, in order |
| ChannelSelection.KeepLargerMaxTokens | model/cache.go:526-551 | after a 413, drops exactly the channels whose MaxTokens for the model some excluded cached channel has |
| ChannelSelection.FirstTierEnd | model/cache.go:558-571 | the end of the first tier, looked for only when its priority is positive |
| ChannelSelection.HighestTier | model/cache.go:591-609 | the channels of maximal priority, never empty |
| ChannelSelection.CacheGetRandomSatisfiedChannelExcluding | model/cache.go:506-616 | draws from exactly the set of channels the specification allows, and fails exactly when it is empty |
| SqlSelection.SameFirstTier | model/ability.go:295-356 | over a fresh index, cache and SQL may return the same channels from the first tier, for every exclude set |
| SqlSelection.SqlBelowTop | model/ability.go:273-294 | below the first tier, SQL may return exactly the candidates under the maximum |
| SqlSelection.SameLowerTiersIff | model/cache.go:506-616 | below the first tier the two agree if and only if the highest remaining priority is positive or nothing is below it |
| SqlSelection.LowerTierIsMissed | model/cache.go:558-571 | over a fresh index, when no candidate has a positive priority, SQL finds every one below the highest and the cache none |
| SqlSelection.LowerTierIsMissedOnce | model/cache.go:558-571 | a table in sync and a fresh index for which that happens, for every group and model |
| SqlSelection.DeclaredModelIsSupported | model/channel.go:476-524 | a channel supports every model it declares, so the final check of the SQL selection cannot fail on rows in sync |
| SqlSelection.DrawnRowServes | model/ability.go:337-356 | whatever row SQL draws, its channel exists, is enabled and supports the model |
| Distributor.SkipKeepsLowerTiers | middleware/distributor.go:545-590 | skipping a channel that fails a test keeps the first tier and what passes below it |
| Distributor.PassesIff | middleware/distributor.go:161-200 | a channel passes exactly when it is not known to be blocked, its own endpoints or, only if it has none, the defaults of its type have the endpoint, and a Response API handshake finds an OpenAI channel |
| Distributor.SocketCandidateIff | middleware/distributor.go:95-130 | a channel is a candidate for a handshake exactly when it is enabled, has the group of the user, and takes the endpoint, as an OpenAI channel for the Response API |
| Distributor.SelectChannel | middleware/distributor.go:545-590 | terminates; returns a passing channel of maximal priority among all that pass, and fails exactly when none passes; likewise below the first tier; excludes only failing channels |
| Distributor.PlaceRequest | middleware/distributor.go:592-654 | a request is placed exactly when some cached channel passes, now or, on the index and limits of that time, after the wait, on a best one; the second pass never succeeds where the first failed |
| Distributor.SelectResponseWebSocketChannelWithoutModel | middleware/distributor.go:95-156 | the eligible channel that is first by priority and id, or below the highest priority, and an error exactly when there is none |
| RelayRetry.PinnedIsRetriedIff | controller/relay.go:177-256 | a pinned request is retried elsewhere exactly after a 413 with another channel to try or after a transient client error |
| RelayRetry.PinnedIsRetried | controller/relay.go:235-256 | a pinned request that was too large goes to the other one of two channels though it is not to be retried and no retries are configured |
| RelayRetry.UnpinnedBudget | controller/relay.go:177-256 | for a request that is not pinned and whose caller still waits: server errors, 401 and 403 get exactly the configured retries, 429 twice as many, any other client error none unless it is transient |
| RelayRetry.UnwantedBudget | controller/relay.go:457-468 | once the caller has gone, or for a pinned request, nothing but a transient client error is retried |
| RelayRetry.TooLargeBudget | controller/relay.go:235-256 | after a 413 there is one retry for every other cached channel, or one when there is no index, whatever else holds |
| RelayRetry.TransientIff | controller/relay.go:493-523 | a client error is transient exactly when its code is one of two or its message has one of three phrases somewhere, in any case of letters |
| RelayRetry.SelectForRetry | controller/relay.go:303-324 | picks a channel the mode of the retry allows, and fails exactly when there is none |
| RelayRetry.Relay | controller/relay.go:177-417 | the loop terminates within its budget, ends in success, an exhausted budget or exhausted channels, relays nothing after a success, and picks channels as a 413, a 429 or any other failure demands |
| RelayRetry.RetriedOnce | controller/relay.go:258-417 | no channel is attempted twice for one request |
| RelayRetry.DefaultDescends | controller/relay.go:258-417 | on the default path retried channels come in nonincreasing priority |
| RelayRetry.LowerTiersFirst | controller/relay.go:303-324 | after a 429 a channel of a positive top tier is retried only when nothing is left below |
| RelayRetry.LargerSizesDiffer | controller/relay.go:258-417 | after a 413 retried channels with a config have pairwise distinct MaxTokens |
| RelayRetry.ExhaustedIff | controller/relay.go:303-330 | nothing is left to retry exactly when every cached channel failed or, after a 413, has a MaxTokens that failed |
| RelayRetry.EnoughAttemptsExhaust | controller/relay.go:258-417 | with enough attempts an unanswered request has tried every cached channel or, after a 413, every MaxTokens |
| RelayRetry.TooLargeBudgetIsEnough | controller/relay.go:235-256 | the attempts granted after a 413 are enough when the failed channel is cached |
| TokenBilling.ExpiryPositiveIff | controller/token.go:386-387 | a hold gets a positive expiry if and only if adding its timeout does not overflow 64 bits |
| TokenBilling.NoExpiryWrapsIff | controller/token.go:386-387 | with a positive configured maximum, no request can make the expiry wrap if and only if the maximum leaves room on the clock |
| TokenBilling.LargestTimeoutWraps | common/config/validation.go:342-342 | the largest maximum the start-up check admits lets the largest request wrap at any time after the epoch |
| TokenBilling.TimeoutIs | controller/token.go:758-777 | a hold lasts as long as asked or else as configured or else ten minutes, cut to a positive maximum |
| TokenBilling.PendingForEver | model/token_transaction.go:158-193 | in every run, a pending row without a positive expiry stays as it is unless a call names it: no sweep settles it |
| TokenBilling.HeldUpdate | model/token_transaction.go:126-149 | rewriting one row shifts the sum its token stands for by the change of that row alone |
| TokenBilling.HeldIsRows | controller/token.go:443-607 | the rows of a token stand for the reserved amounts of its pending and auto-confirmed holds and the final amounts of its confirmed ones, and canceled rows for nothing |
| TokenBilling.ReservesIff | controller/token.go:370-440 | exactly when a reservation adds its row, and every field of that row |
| TokenBilling.PendingRowIff | controller/token.go:443-465 | a request settles a row exactly when it is the pending row of its token under the trimmed id, which must not be blank |
| TokenBilling.PostsIff | controller/token.go:443-541 | exactly when a finalization changes a row, and every field it then has: confirmed at the final amount given, or else at the amount to add |
| TokenBilling.CancelsIff | controller/token.go:544-607 | exactly when a cancellation changes a row, and every field it then has: canceled at a final amount of 0 |
| TokenBilling.SucceedsIff | controller/token.go:284-367 | a call answers success exactly when its rows were written and could be read back |
| TokenBilling.ReservationCharges | controller/token.go:370-440 | a reservation that adds its row charges exactly the requested amount to the user and to a limited token |
| TokenBilling.SettlingCharges | controller/token.go:443-607 | when no quota write fails, a cancellation gives back exactly what its row reserved and a finalization charges exactly the difference to its final amount, to the user and to a limited token |
| TokenBilling.SweepConfirms | model/token_transaction.go:158-193 | a sweep changes only pending holds whose positive expiry has come, and finalizes them at what they reserve |
| TokenBilling.PreBalancedIff | model/token.go:405-474 | a reservation leaves charges and rows in balance if and only if it does not fail between the two writes on a limited token and a needed compensation is carried out |
| TokenBilling.SettleBalancedIff | model/token.go:476-500 | settling at a difference keeps the balance if and only if a failed adjustment did not reach the user, a successful one did, and a compensation undoes exactly what was done |
| TokenBilling.TornReservation | model/token.go:463-472 | a limited token is charged for a reservation that is reported as failed and has no row |
| TokenBilling.UnpaidSettlement | model/token.go:476-500 | a settlement is reported as made though the user has paid nothing |
| TokenBilling.ReservationNeverShort | model/token.go:405-474 | with a working database a reservation goes through exactly when the balances suffice and never leaves the charges off |
| TokenBilling.SettlementShortIff | model/token.go:476-500 | with a working database, settling keeps the balance if and only if there is nothing to pay, the user can pay it, or neither the user nor the limited token can |
| TokenBilling.ShortUserPaysNothing | model/user.go:485-504 | a settlement is reported as made though the user has less than the difference and pays nothing |
| TokenBilling.BalancesDecide | model/token.go:405-500 | the balances only matter when one falls short: a reservation is refused when its user or its limited token does, and an adjustment fails to deduct what is not there |
| TokenBilling.BalancedAfter | controller/token.go:443-541 | whatever is deducted and however the rows of one token change, the drift takes up exactly the difference |
| TokenBilling.HoldSettlesInFull | controller/token.go:610-641 | a fresh hold settles at the reserved amount without a charge and without drift |
| TokenBilling.DriftIsGains | controller/token.go:284-367 | over any run the drift of a token grows by the sum of what each call puts it off, given by the faults of that call |
| TokenBilling.BalancedRunIff | controller/token.go:284-367 | after any run that started in balance, both quotas are charged exactly the amounts reserved by pending and auto-confirmed rows and finalized by confirmed ones if and only if what the calls put the token off adds up to nothing |
| TokenBilling.StaysBalancedIff | controller/token.go:284-367 | all runs limited to given kinds of failure charge a token exactly what its rows stand for if and only if those kinds are harmless to it |
| TokenBilling.WholeRunsStayBalanced | controller/token.go:284-367 | when quota calls are refused at once or carried out in full, no run puts any token off, wherever row writes and sweeps fail |
| TokenBilling.PhaseTouchesNamed | controller/token.go:284-367 | a phase changes the row it names and no other row that was there |
| TokenBilling.SettleKeeps | controller/token.go:443-607 | settling a pending row keeps all rows well formed, keys unique and settled rows untouched |
| TokenBilling.SweepEvolves | model/token_transaction.go:158-193 | auto-confirming expired holds changes no settled row and keeps pending equivalent to a positive expiry |
| TokenBilling.Billing.PreConsumeTokenQuota | model/token.go:405-474 | two writes, the token first: refused, failed halfway or carried out, with exactly what each leaves deducted |
| TokenBilling.Billing.PostConsumeTokenQuota | model/token.go:476-500 | two writes, the user first and unchecked: what each failure leaves deducted, and what is reported |
| TokenBilling.Billing.GenerateTransactionId | controller/token.go:742-755 | the first of five proposed ids the token has not used; none exactly on a failure or five collisions |
| TokenBilling.Billing.ProcessPreConsume | controller/token.go:370-440 | adds exactly one pending row, and charges its amount, or none; exactly when; the drift grows by the amount stated for its faults |
| TokenBilling.Billing.Settle | controller/token.go:443-607 | writes the settled row exactly when the adjustment goes through and the row can be written; charges, compensation included, stay in balance up to the stated drift |
| TokenBilling.Billing.ProcessPostConsume | controller/token.go:443-541 | confirms exactly a pending row at the requested final amount, charging the difference, and leaves every other row; exact condition of success and exact drift |
| TokenBilling.Billing.ProcessCancelConsume | controller/token.go:544-607 | cancels exactly a pending row, taking its reservation off the charges of a limited token and of its user, and leaves every other row; exact condition of success and exact drift |
| TokenBilling.Billing.ProcessImmediateConsume | controller/token.go:610-641 | reserve and settle in one, charging the amount once; a failed settlement leaves the reservation pending and charged; exact condition of success |
| TokenBilling.Billing.AutoConfirmExpired | model/token_transaction.go:158-193 | after a sweep that succeeds no pending hold of the token has expired; nobody is charged; a sweep whose search fails changes nothing, and one whose write fails has confirmed expired holds only |
| TokenBilling.Billing.ConsumeToken | controller/token.go:284-367 | one event: expired holds are settled first, then exactly the effect of its phase, with its exact answer; rejected events change nothing more |
| TokenBilling.Billing.ServeAll | controller/token.go:284-367 | any run of events with any failures is a run of the specified steps: charges are what the rows stand for up to the drift, settled rows never change, and pending stays equivalent to a positive expiry while no expiry overflows |
| CostUpsert.AtMostOneRowAndOneWrite | model/cost.go:51-87 | in every interleaving, with pruning and spurious failures: at most one row per request, carrying the last write; a call is done exactly when it wrote once |
| CostUpsert.StatementWrites | model/cost.go:58-87 | exactly when a statement of a call writes, and what it makes of the table: its quota in the rows of its request or a new stamped row, and nothing else |
| CostUpsert.FailedIff | model/cost.go:60-86 | in every run, a call fails if and only if one of its own updates fails when it is due |
| CostUpsert.Completes | model/cost.go:51-87 | whatever other calls do, a call whose own updates do not fail, which is not disturbed, and which has had its three turns is done and has written |
| CostUpsert.DoneHasWritten | model/cost.go:51-87 | right after one of its own statements, a call that is done had a row of its request with its quota |
| CostUpsert.UndisturbedUpsert | model/cost.go:51-125 | with pruning going on, for a week after the oldest row of a request no completed call of it is lost, and once written it has one row with the quota of the last write |
| CostUpsert.NothingLostIff | model/cost.go:51-125 | over all calls and interleavings with pruning at any time, no call is lost if and only if creations do not fail spuriously and the longest call and the longest delay of a stamp add up to at most a week |
| CostUpsert.RunCovered | model/cost.go:51-125 | the invariant behind it: while a call looks for its row the rows of its request are hardly older than its first statement, and while it retries in time there is one |
| CostUpsert.LostNeedsDisturbance | model/cost.go:51-125 | in any run, however disturbed otherwise, a call whose own creation does not fail spuriously and whose own rows are never old enough to be pruned is not lost |
| CostUpsert.PruningLosesCall | model/cost.go:107-125 | for every length of calls and delay of stamps beyond the bound, a run in which pruning between a lost race and the retry loses a call |
| CostUpsert.FailedCreationLosesCall | model/cost.go:77-86 | a run in which a creation that fails for another reason loses the call, however short it is |
| CostUpsert.RunConsistent | model/cost.go:51-87 | rows, writes and stages of the calls stay consistent after every step of every run |
| CostUpsert.RunSteady | model/cost.go:51-125 | for a week after its oldest row a written request keeps its row and a retrying call of it finds one |
| CostDedup.CostTable.StaleIds | model/cost.go:191-212 | exactly the ids of rows older than another row of their request |
| CostDedup.CostTable.DedupByIds | model/cost.go:202-221 | deleting in batches by id leaves exactly the newest rows of each request |
| CostDedup.CostTable.Latest | model/cost.go:191-254 | the newest marker of every request |
| CostDedup.CostTable.DedupByRequest | model/cost.go:222-263 | deleting request by request leaves exactly the same rows as deleting by id |
| CostDedup.SurvivorsCover | model/cost.go:189-263 | every request keeps a row, and only rows with its newest marker |
| CostDedup.FilterDistinctIff | model/cost.go:189-263 | the rows kept are distinct in their request ids exactly when no two of them share one |
| CostDedup.IndexPossibleIff | model/cost.go:166-263 | one row per request remains, so the unique index can be created, if and only if no request has its newest marker twice |
| CostDedup.TieBlocksIndex | model/cost.go:166-263 | two rows of one request with the same marker both remain, for every request and marker |
| PoolLedger.NetOfZeroIff | model/pool.go:73-75 | a pool has nothing out exactly when each of its rows is settled |
| PoolLedger.UsedWithinTotal | model/pool.go:73-75 | with the books in order, what a pool has out lies between nothing and its total |
| PoolLedger.SoundAfterAllocate | model/pool.go:197-276 | handing out any amount the pool has, negative ones included, keeps usage equal to the rows and the log replayable |
| PoolLedger.InBoundsAfterAllocateIff | controller/user.go:1789-1789 | rows and log stay in bounds across an allocation if and only if its amount is positive |
| PoolLedger.NegativeAllocation | controller/user.go:1789-1789 | a negative allocation leaves an overdrawn row and a pool with less than nothing out |
| PoolLedger.SoundAfterRecall | model/pool.go:279-358 | taking back keeps usage equal to the rows and the log replayable |
| PoolLedger.RecalledIs | model/pool.go:326-333 | a recall adds its amount to what the row has given back and leaves what was handed out, and every other row |
| PoolLedger.CreditIs | model/pool.go:318-324 | the quota of the user who exists moves by the amount, and nobody else's |
| PoolLedger.CanRecallIff | model/pool.go:279-316 | a recall goes through exactly when the pool exists and is active, the first row of pool and user has that much out, and the user owns it |
| PoolLedger.InBoundsAfterRecall | model/pool.go:279-358 | taking back a positive amount that the row has out keeps the bounds |
| PoolLedger.SoundAfterCreate | model/pool.go:95-102 | the log of a created pool replays from its initial total |
| PoolLedger.SoundAfterOpening | model/pool.go:430-458 | the log of a rolled-over pool replays from 0, or from the carried balance when its opening entry is not written |
| PoolLedger.ProgressStep | model/pool.go:397-415 | one turn of the recall loop settles the row when its user can cover it and leaves the others |
| PoolLedger.DrainedIff | model/pool.go:397-415 | when the loop is through, nothing is out exactly when everything out was in first rows of users who could cover it |
| PoolLedger.SecondRowStaysOut | model/pool.go:397-415 | a pool with quota out in a second row of a user, which cannot be drained |
| PoolLedger.Book.PurchaseToPool | model/pool.go:153-194 | total, log and overall wealth grow by exactly the amount; fails exactly on a pool that is not active |
| PoolLedger.Book.AllocateFromPool | model/pool.go:197-276 | for every amount: opens a new row; exact condition of success; the bounds survive if and only if the amount is positive; wealth is kept unless the user does not exist, then it drops by exactly the amount |
| PoolLedger.Book.RecallFromPool | model/pool.go:279-358 | works on the first row of user and pool; exact condition of success; wealth is kept |
| PoolLedger.Book.RecallAllFromPool | model/pool.go:397-415 | returns exactly the drop of the usage; without failures the pool is drained if and only if stated; wealth is kept |
| PoolLedger.Book.ClosePool | model/pool.go:143-150 | takes the available balance out of circulation, or changes nothing on a failure |
| PoolLedger.Book.CreatePool | model/pool.go:95-102 | wealth grows by the initial total |
| PoolLedger.Book.RollOverPool | model/pool.go:419-458 | carries the remaining balance over; the exact change of wealth for active and closed pools, for a failed closing, creation and opening entry |
| PoolLedger.RollOverKeepsWealthIff | model/pool.go:419-458 | rolling over keeps wealth if and only if the pool cannot be closed, had nothing left, or was active just if its successor is created |
| PoolLedger.RollOverChangesWealth | model/pool.go:419-458 | for every balance, a closed pool that is rolled over makes it anew, and an active one whose successor is not created loses it |
| PricingKeys.SizeKeyIdempotent | model/channel.go:1122-1128 | normalizing an image size twice is normalizing it once, and the result is trimmed |
| PricingKeys.QualityKeyIdempotent | model/channel.go:1130-1132 | normalizing an image quality twice is normalizing it once, and the result is trimmed |
| PricingKeys.VideoKeyIdempotent | model/channel.go:981-1001 | normalizing a video resolution twice is normalizing it once, through parsing and printing its numbers |
| PricingKeys.PairIsFixed | model/channel.go:981-1001 | a resolution written wider first is left as it is |
| PricingKeys.PairIsSorted | model/channel.go:981-1001 | two positive sizes around any of the three crosses are written larger first |
| PricingKeys.OtherResolutionStays | model/channel.go:981-1001 | anything that does not consist of two positive numbers is only trimmed and put in lower case |
| PricingKeys.FieldsOfPair | model/channel.go:981-1001 | a cross separates the fields before it from those after it |
| PricingKeys.AtoiOfSigned | model/channel.go:981-1001 | digits after a sign are read with that sign exactly when the number fits 64 bits |
| PricingKeys.AtoiOfDecimal | model/channel.go:981-1001 | an integer written out is read back exactly when it fits 64 bits |
| PricingKeys.WithoutSpacesJoins | model/channel.go:1122-1128 | a size is normalized character by character |
| PricingKeys.KeyBlankIff | model/channel.go:981-1132 | no key but a blank one is normalized to nothing |
| Pricing.NormalizeMultipliers | model/channel.go:1067-1092 | rejects exactly a blank normal key or a nonpositive value; otherwise every normal key carries the value of one of its raw keys |
| Pricing.NormalizeQualitySizes | model/channel.go:1093-1118 | rejects exactly what the nested tables forbid; drops empty tables and rekeys the others |
| Pricing.NormalizeImagePricingLocal | model/channel.go:1032-1120 | rejects exactly the invalid records; otherwise yields a normal form of the record |
| Pricing.NormalizeVideoPricingLocal | model/channel.go:817-848 | rejects exactly the invalid records; otherwise yields a normal form of the record |
| Pricing.NormalizeModelConfigLocal | model/channel.go:283-318 | rejects exactly the invalid configurations; keeps every other field but drops the embedding prices |
| Pricing.NormalizedIsFixed | model/channel.go:1032-1120 | a normalized image record is accepted again and all its keys are normal |
| Pricing.FixedNormalizesToItself | model/channel.go:1032-1120 | a record with normal keys normalizes to itself, whatever order its keys are visited in |
| Pricing.VideoNormalizedTwice | model/channel.go:817-848 | normalizing a normalized video record changes nothing |
| Pricing.ConfigNormalizedTwice | model/channel.go:283-318 | normalizing a normalized configuration is possible and changes nothing |
| Pricing.ConfigOkIff | model/channel.go:739-814 | a configuration is valid exactly when no figure but the cached input ratio is negative, its parts are valid, and it says something |
| Pricing.ImageOkIff | model/channel.go:908-979 | image prices are valid exactly when no figure is negative, the limits do not cross and every multiplier is named and positive, and say something unless all but the defaults is missing |
| Pricing.VideoOkIff | model/channel.go:850-880 | video prices are valid exactly when the price is not negative and every multiplier is named and positive, and say something unless there are neither |
| Pricing.AudioOkIff | model/channel.go:882-906 | audio prices are valid exactly when no figure is negative, and say something when one is not zero |
| Pricing.TierOkIff | model/channel.go:763-779 | a tier is valid exactly when neither its threshold nor a ratio but the cached input one is negative |
| Pricing.ImageAcceptedIff | model/channel.go:908-1120 | normalizing accepts exactly the image records that validating accepts, though one looks at normal keys and the other at trimmed ones |
| Pricing.VideoAcceptedIff | model/channel.go:817-868 | normalizing accepts exactly the video records that validating accepts |
| Pricing.ConfigAcceptedIff | model/channel.go:283-318 | normalizing accepts exactly the configurations whose parts are all valid, so every valid one |
| PricingMigration.FormatAgrees | model/channel.go:584-736 | whether the format step succeeds does not depend on the order keys are visited in, and its result only in image records |
| PricingMigration.FormatFormats | model/channel.go:584-736 | what the format step leaves is empty, valid and priced, or mere limits while the ratios it sees are zero |
| PricingMigration.LimitsConvert | model/channel.go:584-736 | mere limits are converted to themselves, or not at all when a ratio column names a model they lack |
| PricingMigration.FormatTakes | model/channel.go:650-716 | what the format step rewrites has a record under exactly the names of the object and of the cleanly decoded columns, each ratio from its own column, limits and image prices from the old record |
| PricingMigration.FormatRejects | model/channel.go:584-716 | what the format step fails on: text that is no object, invalid records of the new format, undecodable or invalid old ones, negative ratios |
| PricingMigration.HistoricalTakes | model/channel.go:1789-1818 | after a historical step that merges, every stored record takes each ratio from its own column under one and the same name that trims to its own; a nonnegative value overrides the stored one, otherwise that stays |
| PricingMigration.HistoricalCovers | model/channel.go:1733-1787 | the historical step leaves a column with a price alone; otherwise every name a column prices has a record afterwards |
| PricingMigration.HistoricalKeepsLimits | model/channel.go:1768-1818 | and so has every name stored with a token limit, unless both ratio columns are empty |
| PricingSteps.ConvertRecord | model/channel.go:676-715 | carries one old record over; fails exactly on a bad image or a negative ratio |
| PricingSteps.ConvertRecords | model/channel.go:650-716 | converts every name of the three sources, and fails exactly when one of them cannot be |
| PricingSteps.MergeRatios | model/channel.go:1768-1820 | merges exactly the names with limits or usable ratios, each ratio overridden from its own column where that is usable |
| PricingSteps.Channel.SetModelPriceConfigs | model/channel.go:1247-1279 | stores one normalized record per trimmed name, or fails and leaves what was there |
| PricingSteps.Channel.MigrateModelConfigsToModelPrice | model/channel.go:584-736 | the format step reaches one of its specified outcomes, and leaves the column alone on error |
| PricingSteps.Channel.MigrateHistoricalPricingToModelConfigs | model/channel.go:1690-1848 | the historical step reaches one of its specified outcomes, and leaves the column alone on error |
| PricingSteps.Channel.Migrate | model/channel.go:2120-2203 | the migration of one channel saves one of its specified outcomes at the first try or after widening the column, and after any error the column keeps what it held |
| MigrationRuns.StoringMerged | model/channel.go:1247-1279 | storing merged limits fails exactly on a blank name and otherwise keeps one record under each trimmed name |
| MigrationRuns.MergedIff | model/channel.go:1793-1820 | a name is merged exactly when it has a limit or a usable nonzero ratio, and is priced exactly in the latter case |
| MigrationRuns.LimitsStay | model/channel.go:2120-2180 | a run leaves settled limits alone, also when it stops with an error |
| MigrationRuns.PricesStay | model/channel.go:614-627 | a run leaves priced records alone |
| MigrationRuns.FailedFormatIsIdle | model/channel.go:2127-2138 | when the format step can fail, no run changes anything |
| MigrationRuns.FailedMergeIsIdle | model/channel.go:2143-2153 | when the historical step can fail, no run changes anything |
| MigrationRuns.SecondRunIsIdle | model/channel.go:2101-2180 | unless prices are hidden, a second run changes nothing, whatever outcome the first had |
| MigrationRuns.HiddenPricesDiffer | model/channel.go:2101-2180 | when prices are hidden, some first run leaves what some second run changes |
| MigrationRuns.HidesPricesIff | model/channel.go:2101-2180 | hidden prices, stated on the stored token limits and the ratio columns, are exactly what the merged records may hide |
| PricingMigration.LeavesUnpricedIff | model/channel.go:584-736 | whether the format step succeeds and leaves no price per token can be read off the columns |
| MigrationRuns.LimitsCarryOver | model/channel.go:650-716 | the format step carries token limits over as they are, whatever it chooses |
| MigrationRuns.IdempotentIff | model/channel.go:2101-2180 | running the migration twice is running it once if and only if no price is hidden |
| MigrationRuns.NamesApartNeverHide | model/channel.go:2101-2180 | no price is hidden when no two model names become one by trimming |
| MigrationRuns.CleanColumnsNeverHide | model/channel.go:1690-1848 | no price is hidden when both ratio columns decode without error |
| MigrationRuns.UncleanColumnHides | model/channel.go:1701-1716 | a channel whose price is hidden: the ratio column has a value of the wrong type and two names differ in a blank |
| MigrationRuns.StoringTwice | model/channel.go:1229-1279 | reading configurations back and storing them again stores the same |
| StickyKeys.StorageKeyInjective | model/sticky_session.go:84-97 | sticky, response and function-context keys are pairwise distinct and determine user and name, whatever characters these hold |
| StickyKeys.NormalizedTwice | model/sticky_session.go:74-82 | normalizing a model name twice is normalizing it once |
| StickyKeys.SameModelKeyIff | model/sticky_session.go:74-82 | two names share a binding exactly when they differ in case and surrounding white space only, or each is blank or the placeholder |
| Text.BlankWhenLowered | model/sticky_session.go:74-82 | an accepted name never falls back to the placeholder |
| StickyStore.AnswerIff | model/sticky_session.go:123-164 | the reference answers a channel exactly when the last event of the binding bound it there and has not expired |
| StickyStore.LookupAgrees | model/sticky_session.go:149-163 | a lookup in the purged store equals the answer of the full history |
| StickyStore.BindAgrees | model/sticky_session.go:115-117 | binding keeps the store in agreement with the history, for every other binding too |
| StickyStore.UnbindAgrees | model/sticky_session.go:181-183 | deleting keeps the store in agreement with the history, for every other binding too |
| StickyStore.DroppingAgrees | model/sticky_session.go:50-58 | dropping any expired entries at any time keeps the store in agreement with the history |
| StickyStore.LivesAsConfiguredIff | model/sticky_session.go:64-72 | entries live half an hour by default, and as long as configured if and only if that many nanoseconds fit 64 bits |
| StickyStore.LongestTimeoutExpiresAtOnce | model/sticky_session.go:64-72 | one second more and the duration is negative |
| StickyStore.StickySessions.Load | model/sticky_session.go:149-163 | the answer of the full history, deleting the entry when it is found expired |
| StickyStore.StickySessions.SetStickySessionChannel | model/sticky_session.go:100-120 | rejects exactly the invalid arguments; otherwise binds the normalized model |
| StickyStore.StickySessions.GetStickySessionChannel | model/sticky_session.go:123-164 | the answer of the full history for the normalized model, nothing for invalid arguments |
| StickyStore.StickySessions.DeleteStickySessionChannel | model/sticky_session.go:167-185 | unbinds exactly the normalized model of the user |
| StickyStore.StickySessions.SetResponseBoundChannel | model/sticky_session.go:188-206 | rejects exactly the invalid arguments; otherwise binds the trimmed response id |
| StickyStore.StickySessions.GetResponseBoundChannel | model/sticky_session.go:209-249 | the answer of the full history for the trimmed response id |
| StickyStore.StickySessions.RecordFunctionContext | model/sticky_session.go:252-302 | records the channel exactly for valid arguments with tools or a previous response |
| StickyStore.StickySessions.Cleanup | model/sticky_session.go:42-62 | removes exactly the expired entries; no later answer changes |
| StickyStore.StickySessions.DeleteExpired | model/sticky_session.go:53-57 | the loop over the keys removes exactly the entries past their expiry |
| Analytics.GroupsAddUp | controller/user.go:748-802 | however rows are grouped, the totals of the groups add up to the sum of the rows |
| Analytics.TwoSidesAddUp | controller/user.go:790-801 | the two sides of a split add up to the sum of the rows |
| Analytics.GroupedOneMore | controller/user.go:760-788 | adding a row to the entry of its group keeps every entry the total of its group |
| Analytics.ComputeAnalyticsRate | controller/user.go:866-874 | a share between 0 and 1, exact when the numerator lies within the denominator |
| Analytics.OverallRateIsBetween | controller/user.go:866-874 | the rate of a sum lies between the rates of its sensible parts, capping included |
| Analytics.SensibleIff | controller/user.go:866-874 | a nonnegative counter keeps every sum with sensible days between the rates if and only if it is sensible |
| Analytics.CachedWithoutPrompts | controller/user.go:866-874 | cached tokens without prompt tokens lift the overall rate above every part |
| CacheAnalytics.Aggregate | controller/user.go:735-802 | the loop computes the sum, the totals per day and per source, the first row's labels, and the two parts of the comparison, before being the days that come first |
| CacheAnalytics.AtMostIff | controller/user.go:811-831 | of two different texts the smaller one is a beginning of the other or has the smaller character where they first differ |
| CacheAnalytics.SameLengthComesFirst | controller/user.go:811-811 | of two dates of one length the earlier one has the smaller character where they first differ |
| CacheAnalytics.BeforeIff | controller/user.go:791-794 | a row is counted before the compared date exactly when its day comes first |
| CacheAnalytics.FirstSourceIs | controller/user.go:736-781 | an entry is labelled by the first row of its group, a blank format as unknown |
| CacheAnalytics.MakeTimeseries | controller/user.go:804-812 | one entry for exactly the days that have rows, with its totals, each day before the next one in the order of texts |
| CacheAnalytics.MakeBreakdown | controller/user.go:814-831 | one entry per source key, with its totals, by nonincreasing quota and, of equal quota, by model, channel and format |
| CacheAnalytics.GetUserCacheAnalytics | controller/user.go:735-856 | the report lists exactly the groups of the rows with their totals and rates, days in increasing and sources in nonincreasing order, and splits the rows at the compared date |
| CacheAnalytics.ReportAddsUp | controller/user.go:748-856 | timeseries and breakdown each add up to the summary, counter by counter |
| CacheAnalytics.ComparedAddsUp | controller/user.go:790-801 | with a compare date, before and after add up to the summary |
| CacheAnalytics.TimeseriesRateIsBetween | controller/user.go:804-848 | the overall hit rate lies between any bounds of sensible daily rates |
| CacheAnalytics.SummaryRateIsBetween | controller/user.go:804-848 | with sensible daily counts the overall hit rate lies between the smallest and the largest daily rate |
| CacheAnalytics.SourceKeyInjective | controller/user.go:772-772 | the breakdown key determines model, channel and format when formats hold no separator |
| CacheAnalytics.SourceKeysCollideIff | controller/user.go:772-772 | two sources with given formats can share a key if and only if one format runs into the other: an id, or a text ending in one after the separator, then the separator and the other format |
| CacheAnalytics.WrittenEntriesSumTheirSource | controller/user.go:772-788 | over the formats the program writes, every entry sums exactly the rows of its model, channel and format |
| CacheAnalytics.EntrySumsItsSource | controller/user.go:772-788 | when no format of the rows runs into that of a source, or the other way round, its entry sums exactly the rows of its model, channel and format |
| Text.DecimalInjective | model/sticky_session.go:84-97 | printed integers determine the integer |
| Text.FirstFieldUnique | model/sticky_session.go:84-97 | a text is cut at its first separator in only one way |
| Text.LastFieldUnique | model/cache.go:327-350 | a text is cut at its last separator in only one way |
| Text.SplitJoins | model/ability.go:34-53 | splitting undoes joining, and no part keeps a separator |
| Text.TrimSpaceDrops | model/sticky_session.go:74-82 | trimming leaves the text between two places and drops nothing but white space |
| Text.IsSpaceIff | model/sticky_session.go:74-82 | the characters trimmed are the white space of Unicode |
| Text.LowerCharIs | model/sticky_session.go:74-82 | each capital becomes the letter of the same rank and no other character changes |

## Left out

- HTTP handlers, gin contexts, logging, metrics, JSON text, SQL text and dialects: a decoded or failed value stands for a text, rows for a table.
- Redis failures and the Redis form of the sticky store and of the function-context list; expiry of Redis keys is modelled for the limiter.
- Concurrent billing, pool and sticky-store handlers: their theorems are about serialized steps. The cost upsert is modelled under all interleavings.
- TokenBilling.Billing.PreConsumeTokenQuota: the checks that refuse a call before its writes (expired or exhausted tokens, too little user quota) are one parameter of the runs, as are failing writes; `ReserveCall` and `AdjustCall` give both for given balances. The batching of quota updates is not modelled.
- TokenBilling.Billing.ConsumeToken: validation of tokens and users, log writing and the response built from a transaction are not modelled.
- RedisRateLimiter.RedisLimiter.Request: the commands of one request are one step.
- MemoryRateLimiter.InMemoryRateLimiter.Request: each key keeps one window for its life, as every caller keeps it, and the clock never runs backwards; limits may change from request to request.
- ChannelSelection.CacheGetRandomSatisfiedChannelExcluding: the random draw is a parameter, so what may be returned is a set; the path with the memory cache disabled is the SQL selection.
- SqlSelection.SameFirstTier: rows and channels are in sync, as the operations on abilities keep or make them (`AddKeepsSync`, `UpdateRestoresSyncIff`, `SwitchKeepsSync`, `SuspendKeepsSync`); the same goes for the other results that compare the two selections.
- Distributor.PlaceRequest: sticky and response bindings, pinned channels, the routing of vision models and the wait itself are left out; the answers of the limiter hold still during one pass.
- RelayRetry.Relay: the snapshot of the cache holds still during one request. The outcome of an attempt is a function of the channel, which is no restriction as no channel is attempted twice.
- CostUpsert.AtMostOneRowAndOneWrite: all servers and the database go by one clock; the empty request id, which the code rejects first, and the repair of the column widths are left out.
- CostDedup.CostTable.DedupByRequest: markers are never null; the removal of overlong request ids is left out.
- PoolLedger.Book.RollOverPool: names and periods of pools are left out, as is 64-bit overflow of pool totals.
- PoolLedger.Book.PurchaseToPool: amounts of purchases and recalls are positive and initial totals are not negative, as the bindings of their requests demand (controller/pool.go:15-37).
- PricingSteps.Channel.Migrate: the error rate over all channels is left out; whether saving and widening succeed are parameters.
- Pricing.NormalizeModelConfigLocal: tooling, the nested embedding record and the aliasing of copied slices are left out.
- StickyStore.StickySessions.SetResponseBoundChannel: memory mode means that no Redis client exists, so the attempt to write to Redis fails and the entry goes to memory.
- StickyStore.StickySessions.RecordFunctionContext: only the memory entry is modelled, as the payload is dropped in memory mode.
- CacheAnalytics.GetUserCacheAnalytics: filters, permissions and the date range only choose the rows; the savings rate equals the hit rate and is not repeated.
- Text.TrimSpaceTrims: case mapping covers ASCII letters only; white space is Unicode's.
- Selection of a model's default price limits, redemption codes, passkeys, options and retention sweeps: one-step facts or code outside these components.
