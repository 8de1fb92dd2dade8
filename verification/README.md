# omkit-go: verified protocols

omkit-go is a kit of small stateful protocols between Go processes and shared stores: a cron
reconciler, a circuit breaker with a retrying POST, an offset-based event bus, a settings poller, a
rate limiter, a feature-flag snapshot, an advisory-lock loop, pooled-connection roles, a tenant cache,
and the token and job-envelope formats. This project models them in Dafny and proves what they
promise over every input, every run and every interleaving.

| file | models |
|---|---|
| `Scheduler.dfy` | the reconcile loop as a class over a class for Asynq; every external call may fail |
| `HttpClient.dfy` | the three-state breaker, refined against a specification over its history; the retry loop |
| `EventBus.dfy` | publishers and pollers as interleaved atomic steps; `pollOnce` itself as a method |
| `Settings.dfy` | the watermark poller as a class, and as steps interleaved with writers |
| `RateLimit.dfy` | the per-IP bucket map and how many hits it lets through |
| `DbPool.dfy` | a pooled connection's session and transaction settings, statement by statement |
| `FeatureFlags.dfy`, `Cleanup.dfy`, `TenantCache.dfy` | interleaved step machines with an invariant over every run |
| `Json.dfy`, `Envelope.dfy` | JSON writing and parsing (RFC 8259), the job envelope and its way through the queue |
| `Encryption.dfy` | base64url (section 5 of RFC 4648), the AES-GCM framing and the token format |

Two forms recur. Code that changes fields is a class whose methods are proved against functions of
the old state. Code whose promise is about interleavings is a total function `Apply(state, step)`
under which a step that is not enabled does nothing, so that "every run" is every sequence of steps.
Locks are atomic steps, the clock is a non-decreasing input, and every failure is an input.

## Findings

Where the code and its documentation or an expected property disagree, the model follows the code.

- `PostJSON` returns neither a response nor an error exactly when the breaker admits the call, the
  body marshals and `retries <= 0` (`HttpClient.PostJSON`). Its backoff is exact for 37 values and
  wraps around from the 38th on (`HttpClient.BackoffDoubles`).
- Two pollers under one consumer name can move the stored offset back. It is monotone in every run
  exactly when one poller serves the subscription (`EventBus.OffsetMonotoneExactlyWhenSolo`).
  Delivery stays at-least-once and in order either way.
- `NewPool` is documented to guarantee its role on every connection. The idle role is lost exactly
  when the last committed role-setting transaction was a `Superuser` or a bus transaction
  (`DbPool.IdleKeepsPoolRole`).
- The limiter is documented to cap hits within a rolling window. A window-long interval may hold up
  to `2 * capacity - 1`, and that bound is reached; the documented cap holds exactly for a capacity of
  1 (`RateLimit.WindowBound`, `RateLimit.WindowBoundIsTight`, `RateLimit.RollingCapExactlyWhen`). The
  clock is read before the lock is taken, so readings can arrive late; `RateLimit.LaggedWindowBound`
  bounds the count by how late.
- `Invalidate` of one flag can overwrite a newer `Refresh` with older flags
  (`FeatureFlags.OverlapRestoresOldFlag`). What is published is current, whatever the database reads
  return, exactly when it is not marked stale: the mark arises when an invalidation stores a map loaded
  before the latest refresh published, and the next refresh to publish clears it
  (`FeatureFlags.CurrentExactlyWhenFresh`).
- `Unwrap` accepts negative envelope versions (`Envelope.NegativeVersionAccepted`).
- Two tenants share a scheduler key exactly when one, followed by a colon, begins the other. Under a
  tenant check that admits such a pair, a row can be left with the other tenant's registration although
  every call succeeded (`Scheduler.ServeClashingRows`), and convergence over all rows holds exactly when
  it admits none (`Scheduler.ConvergesExactlyWhenApart`). The forms `uuid.Parse` documents admit none
  (`Scheduler.UuidsAreApart`), so there every successful pass converges.
- An initial settings load that ends in an error can leave the watermark above rows it never read; it
  is sound exactly when every non-secret row it missed is stamped above all it read
  (`Settings.PartialLoadSoundExactlyWhen`).

## Model

| member | source | states |
|---|---|---|
| Scheduler.Scheduler.Reconcile | scheduler/scheduler.go:229-292 | one pass under any fetch, wrap, Register, Unregister failures: the entry table and the live registrations stay in one-to-one correspondence; the result up to ids is `Target` of what was there, the rows and the failures; successful calls equal the drop in outstanding work and never decrease; no work means no call; an all-successful pass leaves no work, and converges if and only if no row found another tenant's entry unchanged under its key, so always when valid tenants are apart |
| Scheduler.Scheduler.RunLoop | scheduler/scheduler.go:214-225 | over any sequence of ticks nothing leaks or dangles, while the rows stay the same the successful calls of the whole run equal the drop in outstanding work, and a successful last tick converges whatever failed before it when valid tenants are apart |
| Scheduler.Scheduler.RegisterDesired | scheduler/scheduler.go:257-291 | the registering loop, in any order: every desired key ends at its target, no other key moves, work is conserved, one enqueue per registration when enabled |
| Scheduler.Scheduler.UnregisterAbsent | scheduler/scheduler.go:245-254 | the unregistering loop, in any order: exactly the absent keys whose call succeeds are gone, and each success is one unit of work |
| Scheduler.Scheduler.ReconcileKey | scheduler/scheduler.go:257-291 | one key: keep, replace in two fallible calls or register; the key reaches its target and nothing else moves |
| Scheduler.Scheduler.UnregisterIfAbsent | scheduler/scheduler.go:245-253 | one key of the unregistering loop |
| Scheduler.Scheduler.RegisterEntry | scheduler/scheduler.go:275-290 | a successful registration is recorded under its id and hash and followed by the optional enqueue of the same payload; a failed one changes nothing |
| Scheduler.Scheduler.Remove | scheduler/scheduler.go:247-251 | the entry is deleted exactly when the Unregister call succeeds, and its registration is then no longer live |
| Scheduler.Scheduler.RegisterOne | scheduler/scheduler.go:294-302 | succeeds exactly when the wrap and the call do, and makes live a registration that serves the row |
| Scheduler.Scheduler.constructor | scheduler/scheduler.go:151-166 | starts with no entries and the correspondence established |
| Scheduler.Asynq.Register | scheduler/scheduler.go:95-100 | a success adds one registration under a fresh id; a failure changes nothing |
| Scheduler.Asynq.Unregister | scheduler/scheduler.go:95-100 | a success removes that registration; a failure changes nothing |
| Scheduler.EntriesAreExactlyTheLiveRegistrations | scheduler/scheduler.go:229-302 | what the class invariant means: entry ids are pairwise distinct and are exactly the live registrations, and each of these serves the row its entry was registered from |
| Scheduler.UnregisterStaleIsOneUnit | scheduler/scheduler.go:245-253 | unregistering an absent key lowers the outstanding work by exactly one |
| Scheduler.UnregisterChangedIsOneUnit | scheduler/scheduler.go:263-273 | so does unregistering a changed key, which is then a missing one |
| Scheduler.RegisterIsOneUnit | scheduler/scheduler.go:275-280 | so does registering a missing derivable row |
| Scheduler.SuccessfulPassFinishes | scheduler/scheduler.go:244-291 | an all-successful pass leaves no work, drops absent keys, gives derivable rows their own hash and lets underivable ones keep what they had |
| Scheduler.NoWorkMeansConverged | scheduler/scheduler.go:257-302 | with no outstanding work, each derivable row has a live registration with the row's cronspec, the scheduler's task type and queue, and a body from which a worker unwraps the row's tenant, name and config, if and only if every entry was registered for the tenant of the row that now has its key |
| Scheduler.PassKeepsSameTenants | scheduler/scheduler.go:257-291 | whether rows find other tenants' entries is decided before a successful pass: it holds after exactly when it held before |
| Scheduler.ApartMeansSameTenants | scheduler/scheduler.go:236-302 | entries of valid tenants that are apart are never found by another tenant's row |
| Scheduler.ConvergesExactlyWhenApart | scheduler/scheduler.go:236-302 | with one schedule for all rows, any two successful passes over any rows of valid tenants leave each row its own tenant's entry if and only if valid tenants are apart |
| Scheduler.FirstPassRegisters | scheduler/scheduler.go:257-282 | what a successful first pass registers, which the statement above speaks of |
| Scheduler.ClashingRowFindsOtherEntry | scheduler/scheduler.go:257-264 | two rows of different tenants sharing key, config and schedule, one pass after the other: the second keeps the entry of the first |
| Scheduler.ServeClashingRows | scheduler/scheduler.go:229-292 | the run itself: every call succeeds, no work is left, and the first tenant's registration is live for the second tenant's row |
| Scheduler.FinishedPassIsIdle | scheduler/scheduler.go:229-292 | with no work outstanding a further pass changes nothing, whatever calls would have failed |
| Scheduler.OrderDoesNotShow | scheduler/scheduler.go:245-291 | any two iteration orders with the same per-key outcomes give the same table up to ids |
| Scheduler.Desired | scheduler/scheduler.go:236-239 | every row's key is present and every key holds a row of that key |
| Scheduler.LastRowWins | scheduler/scheduler.go:236-239 | of the rows sharing a key the last one counts |
| Scheduler.KeyInjective | scheduler/scheduler.go:324 | equal keys mean equal tenant and name unless one tenant, followed by a colon, begins the other |
| Scheduler.TenantsShareKeysExactlyWhen | scheduler/scheduler.go:324 | two tenants have names sharing a key if and only if one tenant, followed by a colon, begins the other |
| Scheduler.UuidsAreApart | jobqueue/envelope.go:70-72 | of the text forms uuid.Parse documents, none followed by a colon begins another, the urn:uuid: form with its colons included |
| Scheduler.HashInjective | scheduler/scheduler.go:326-334 | hashes agree exactly when cronspec and config do, even for a cronspec holding the separator |
| Scheduler.PayloadIsJson | scheduler/scheduler.go:313-322 | the payload is one JSON value for every name and config, an object that parses to exactly provider_name and config, the latter `{}` when the config does not marshal |
| Scheduler.RegisteredTaskUnwraps | scheduler/scheduler.go:294-302 | for every valid tenant the registration builds with cronspec, task type and queue in their places, and a worker unwrapping its body gets the row's tenant and a payload that carries its name and config |
| HttpClient.CircuitBreaker.Allow | httpclient/client.go:59-75 | after every history of calls the machine answers as the history specification: trailing failures below the threshold, or the cooldown passed since the last failure |
| HttpClient.CircuitBreaker.RecordSuccess | httpclient/client.go:78-83 | keeps the agreement between fields and history, extended by a success |
| HttpClient.CircuitBreaker.RecordFailure | httpclient/client.go:86-94 | keeps the agreement between fields and history, extended by a failure |
| HttpClient.CircuitBreaker.constructor | httpclient/client.go:50-56 | a new breaker agrees with the empty history |
| HttpClient.PostJSON | httpclient/client.go:191-277 | at most `retries` requests, stopping at the first answer below 500; one breaker outcome per completed attempt, among any breaker calls other users make meanwhile, leaving no trailing failure exactly when the last answer was below 500; exactly the discarded responses' bodies closed and the returned one not; the total wait; why it ended, each error exactly when; no result at all exactly when retries <= 0 |
| HttpClient.RetryLoop | httpclient/client.go:205-276 | the same for the loop alone, for any script of replies and cancellations |
| HttpClient.Record | httpclient/client.go:247-267 | the breaker's history grows by what others did meanwhile and exactly this attempt's outcome |
| HttpClient.OutcomeCounts | httpclient/client.go:247-267 | an attempt answered below 500 ends the run of failures; any other prolongs it by one and is its latest |
| HttpClient.FailuresAddUp | httpclient/client.go:247-259 | n failing attempts with nobody else at the breaker prolong the run of failures by n |
| HttpClient.BodiesAreResponses | httpclient/client.go:253-258 | the bodies closed are exactly those of the attempts that got a response |
| HttpClient.BackoffDoubles | httpclient/client.go:210-217 | the n-th int64 backoff is 100 ms * 2^n exactly when n <= 36 |
| HttpClient.TotalBackoff | httpclient/client.go:210-219 | n backoffs add up to 100 ms * (2^n - 1) as long as each is exact |
| EventBus.AtLeastOnce | eventbus/postgres.go:153-197 | every interleaving: for an event at or below a stored offset, some call of that consumer's handler on the event returned no error |
| EventBus.InOrder | eventbus/postgres.go:158-187 | every interleaving: when the handler is to see an event, calls of it on all smaller ids of the topic have returned no error |
| EventBus.HandledExactlyWhenCalled | eventbus/postgres.go:181-187 | an event counts as handled by a consumer if and only if some handler call on it, made by one of the consumer's pollers, returned no error |
| EventBus.FailedCallIsRetried | eventbus/postgres.go:182-187 | a handler error ends the poll, moves no offset, and leaves the event and those after it waiting to be read again |
| EventBus.EventsOnlyAppend | eventbus/postgres.go:86-109 | the event log only ever grows at its end |
| EventBus.PublishedStays | eventbus/postgres.go:86-109 | a published event is visible from then on in every run, with its tenant or the nil UUID |
| EventBus.StepKeeps | eventbus/postgres.go:86-197 | each publish, subscribe, read, handler call, offset write or crash keeps the invariant behind both |
| EventBus.RunKeeps | eventbus/postgres.go:86-197 | so does every run from the empty tables |
| EventBus.WaitingRows | eventbus/postgres.go:159-164 | the query's rows are in id order and are exactly the topic's events above the offset |
| EventBus.BatchIsSegment | eventbus/postgres.go:159-164 | a limited batch is a gap-free run of the topic's events directly above the offset |
| EventBus.OffsetNeverDecreases | eventbus/postgres.go:188-195 | with one poller on a subscription its offset never goes back, between any two points of any run |
| EventBus.TwoPollersMoveTheOffsetBack | eventbus/postgres.go:188-195 | for any two pollers of one subscription, a run in which the offset goes from 2 to 1 |
| EventBus.OffsetMonotoneExactlyWhenSolo | eventbus/postgres.go:188-195 | the offset is monotone in all runs if and only if one poller serves the subscription |
| EventBus.PollTakesOneBatch | eventbus/postgres.go:158-195 | an error-free poll takes exactly one batch off the waiting events |
| EventBus.DrainsInCeilPolls | eventbus/postgres.go:153-197 | from any reachable state of the step machine, n error-free polls drain the waiting events if and only if n is at least ceil(waiting / BatchSize) |
| EventBus.ErrorFreePoll | eventbus/postgres.go:153-197 | from any reachable state the steps of an error-free poll handle the whole batch, move the offset past it, leave the events alone and end idle, so polls chain |
| EventBus.EventsCarryTenants | eventbus/postgres.go:86-109 | every visible event is some publisher's, with its tenant or the sentinel for system events, its topic and its payload |
| EventBus.PostgresBus.PollOnce | eventbus/postgres.go:153-197 | events before the first handler failure are handled, in order; the offset moves past the batch exactly when nothing failed; stored offsets stay covered by handled events |
| EventBus.PostgresBus.constructor | eventbus/postgres.go:45-53 | default batch size 100, empty tables covered |
| Settings.Manager.PollOnce | settings/manager.go:221-270 | cache, listener calls and watermark after the first n of the selected rows, for every n, cut short or not |
| Settings.Manager.LoadFromDB | settings/manager.go:273-307 | cache and watermark after the first n rows in any order, for every n, cut short by an error or not |
| Settings.Manager.ApplyChange | settings/manager.go:322-332 | updates one key and calls its listeners once each, in registration order |
| Settings.Manager.OnChange | settings/manager.go:353-357 | appends to that key's listeners alone |
| Settings.StringIsDecoded | settings/manager.go:254-259 | a JSON string, with any white space around it, is cached as the text it spells |
| Settings.NullIsEmpty | settings/manager.go:254-259 | null is cached as the empty text |
| Settings.OtherTextIsKept | settings/manager.go:254-259 | any other JSON value, and text that is no JSON value, is cached verbatim |
| Settings.CallsCarryRows | settings/manager.go:241-260 | the listener calls of a poll are exactly those of the listeners of non-secret rows' keys, with key and decoded value; no secret reaches a listener |
| Settings.LoadedIsInv | settings/manager.go:273-307 | a load in any row order caches every non-secret row up to the watermark |
| Settings.PartialLoadSoundExactlyWhen | settings/manager.go:273-307 | a first load cut short after n rows leaves a sound watermark if and only if every non-secret row it missed is stamped above all it read |
| Settings.PartialLoadMissesRow | settings/manager.go:273-307 | a table and row order for which it does not |
| Settings.StepKeeps | settings/manager.go:221-270 | each write, delete, query, row and end of a poll keeps the invariant and never lowers the watermark |
| Settings.PollOnceIsItsSteps | settings/manager.go:221-270 | the method's cache and watermark are those of its steps run without interference |
| Settings.WatermarkIsSound | settings/manager.go:221-307 | after a load and any mix of writes, deletes and whole or partial polls, every non-secret row at or below the watermark has its decoded value cached |
| Settings.ReloadIsALoad | settings/manager.go:273-307 | the reload that polls are compared with is what a load of the whole table, in any row order, puts into an empty cache |
| Settings.CompletePollAgreesWithReload | settings/manager.go:221-307 | a complete poll with no later write agrees with a full reload on all current non-secret keys, equals it exactly when no cached key was deleted or became secret, and brings the watermark to every row |
| RateLimit.IPRateLimiter.Allow | middleware/ratelimit.go:56-70 | one hit changes that IP's bucket alone, as the bucket function says |
| RateLimit.IPRateLimiter.Serve | middleware/ratelimit.go:56-70 | a sequence of calls is the run the lemmas speak of |
| RateLimit.IPRateLimiter.constructor | middleware/ratelimit.go:47-53 | starts without buckets |
| RateLimit.IPsAreIndependent | middleware/ratelimit.go:56-70 | each IP's answers and bucket are those of its own hits run alone |
| RateLimit.BucketTellsAdmitted | middleware/ratelimit.go:60-69 | a bucket closes one window after its opening hit and has left its capacity less what it admitted |
| RateLimit.DeniedExactlyWhenFull | middleware/ratelimit.go:60-69 | a hit is denied if and only if its bucket has already admitted its capacity |
| RateLimit.WindowBound | middleware/ratelimit.go:56-70 | any closed interval one window long holds at most 2 * capacity - 1 admitted hits of an IP, judged in the order of their clock readings |
| RateLimit.WindowBoundIsTight | middleware/ratelimit.go:56-70 | for every capacity and window some hits reach that bound |
| RateLimit.RollingCapExactlyWhen | middleware/ratelimit.go:35-70 | every window-long interval holds at most `capacity` admitted hits, for all hits and IPs, if and only if the capacity is 1 |
| RateLimit.LaggedWindowBound | middleware/ratelimit.go:57-70 | with clock readings that reach the lock up to `lag` late and hence out of order, the bound is capacity * ((2 * window + lag) / (window + 1) + 1) |
| DbPool.Connection.Serve | dbpool/pool.go:143-235 | any sequence of transactions, each cut at any statement: tenant and row security never outlive theirs, the idle role is that of the last committed role-setting call, and every callback runs under exactly what it asked for |
| DbPool.Connection.WithTenant | dbpool/pool.go:143-162 | this and WithTenantQuery: the callback sees the pool's role and the tenant; only a commit leaves the role, nothing leaves the tenant |
| DbPool.Connection.Superuser | dbpool/pool.go:176-189 | the callback sees the connecting user, which a commit leaves behind |
| DbPool.Connection.WithPrivilegedRole | dbpool/pool.go:202-216 | the callback sees the role and the session is left as it was |
| DbPool.Connection.WithBusRole | eventbus/postgres.go:61-77 | the callback sees the connecting user without row security; only the reset role outlives a commit |
| DbPool.Connection.constructor | dbpool/pool.go:84-90 | the connect-time role |
| DbPool.IdleKeepsPoolRole | dbpool/pool.go:143-235 | the pool's role is in force on the idle connection if and only if the last committed role-setting call was not a superuser or bus transaction |
| DbPool.SuperuserDropsPoolRole | dbpool/pool.go:176-189 | one committed superuser transaction is enough to lose it |
| FeatureFlags.CopyWithout | featureflags/postgres.go:105-111 | the copying loop yields the old map without the key |
| FeatureFlags.StepKeeps | featureflags/postgres.go:80-113 | each load or store of a refresh or an invalidation keeps the invariant that ties the machine to its history |
| FeatureFlags.PublishedComesFromOneRead | featureflags/postgres.go:80-113 | every interleaving: the published map is empty or a restriction of one single successful read, without the keys invalidated since the last refresh |
| FeatureFlags.InvalidatedStaysAbsent | featureflags/postgres.go:98-113 | whatever happens between an invalidation's load and store and after it, its key is absent from the store on until a refresh publishes |
| FeatureFlags.FreshIsCurrent | featureflags/postgres.go:80-113 | every run: unless marked stale, what is published is the latest published load less exactly the keys invalidated since; a later refresh clears the mark |
| FeatureFlags.CurrentExactlyWhenFresh | featureflags/postgres.go:80-113 | what is published is current in every run of the same steps, whatever the database reads return, if and only if it is not marked stale |
| FeatureFlags.OverlapRestoresOldFlag | featureflags/postgres.go:80-113 | a run in which invalidating one flag brings back another the refresh had disabled |
| FeatureFlags.Allowed | featureflags/allowed.go:25-42 | the two nested loops: true if and only if the flag is known, enabled and has a role in common with the caller |
| FeatureFlags.AllowedNeedsALoad | featureflags/allowed.go:25-42 | every interleaving: a published flag that is enabled for a role was enabled for it in some successful database read |
| Cleanup.StepKeeps | cleanup/loop.go:62-88 | each checkout, lock answer, lost answer, unlock and release keeps the invariant: a running tick's session holds the lock, and the lock's count is the leaked grants plus the running task |
| Cleanup.AtMostOneTask | cleanup/loop.go:62-88 | any number of replicas: at most one task runs while sessions stay up, whatever unlocks fail |
| Cleanup.LockFreeExactlyWhen | cleanup/loop.go:73-83 | the lock is free if and only if no task runs and no grant leaked |
| Cleanup.TickRunsUnlessAnotherDoes | cleanup/loop.go:72-87 | with clean unlocks a tick runs its task exactly when no other is running, and is otherwise a no-op |
| Cleanup.TickGivesBack | cleanup/loop.go:62-88 | a tick with a free connection and a free lock runs its task and afterwards leaves itself idle, connection and lock free and the other ticks as they were |
| Cleanup.EndedTickFreesConnection | cleanup/loop.go:70-88 | however a tick ends, its connection is free again |
| Cleanup.LostSessionAdmitsSecondTask | cleanup/loop.go:72-87 | once a running task's session is lost a second task can run beside it |
| TenantCache.UidCache.Get | tenant/tenant.go:212-229 | an unexpired entry is served and kept, an expired one deleted and not served, no other touched |
| TenantCache.UidCache.Set | tenant/tenant.go:231-239 | stores under the user's key with the expiry one ttl ahead |
| TenantCache.UidCache.constructor | tenant/tenant.go:205-210 | empty; a positive ttl is kept, any other becomes five minutes |
| TenantCache.KeyInjective | tenant/tenant.go:213 | equal keys of colon-free sources, such as the middleware's only one, mean the same user |
| TenantCache.ServedIsFresh | tenant/tenant.go:129-155 | every interleaving: a tenant served from cache was stored by a store step for the same source and uid at most one ttl before the check, and is what the resolver, or failing that the provisioner, returned for that user |
| TenantCache.AnswersComeFromResolvers | tenant/tenant.go:133-155 | an answer for a user was returned to a request that had missed for that user: the resolver's if nonempty, else the provisioner's |
| TenantCache.StoredComesFromStores | tenant/tenant.go:152-154 | what is recorded as stored was stored, at that time, by a request holding that answer |
| TenantCache.StoredLasts | tenant/tenant.go:212-239 | every interleaving: until its ttl is over a stored key stays cached with an expiry no earlier than that store's |
| TenantCache.StoredIsServed | tenant/tenant.go:129-155 | every interleaving: from a store until its ttl is over, any lookup and expiry check of the same user, with any steps between, is served from the cache by that store or a later one, without the resolver |
| TenantCache.EvictedExactlyWhenExpired | tenant/tenant.go:220-226 | a step removes an entry if and only if it is the re-checked eviction of that expired entry; only a store of the same key replaces one |
| Encryption.DecodeUndoesEncode | encryption/encryption.go:74-84 | padded base64url decoding undoes encoding for every byte sequence |
| Encryption.AlphabetRuns | encryption/encryption.go:74-84 | the alphabet is A to Z, a to z, 0 to 9, minus, underscore, in that order |
| Encryption.EncodedIsUrlSafe | encryption/encryption.go:74 | encoded text is URL-safe, four characters for every three bytes begun |
| Encryption.DecodedIsEncoding | encryption/encryption.go:84 | text that decodes is as long as the encoding of its bytes, and is that encoding when it has no padding |
| Encryption.UnwrapUndoesWrap | crypto/aes_gcm.go:19-60 | a blob is the 12-byte nonce followed by the ciphertext and unwraps to the plaintext; a key of another size than 32 bytes fails both ways |
| Encryption.Encrypt | encryption/encryption.go:62-75 | builds the token of its specification, by appending |
| Encryption.Decrypt | encryption/encryption.go:79-102 | the prefix loop and the length check decide as the specification does |
| Encryption.GeneratedKeyDecodes | encryption/encryption.go:52-58 | every generated key decodes to its 32 bytes |
| Encryption.DecryptUndoesEncrypt | encryption/encryption.go:62-102 | for every key string, plaintext and nonce: the round trip; the token is URL-safe text of at least 30 bytes, the text v1, the nonce and the ciphertext sealed with omkit.encryption.v1; a key that does not decode to 32 bytes fails both ways |
| Encryption.OnlyEncryptedTokensDecrypt | encryption/encryption.go:79-102 | a token decrypts to a plaintext if and only if its bytes are those Encrypt makes of it under this key with some nonce |
| Encryption.OtherVersionRejected | encryption/encryption.go:88-95 | any other two version bytes are rejected under every key |
| Json.QuotedReadsBack | jobqueue/envelope.go:77-91 | every string survives escaping and parsing, whatever text follows |
| Json.EscapedIsPlain | jobqueue/envelope.go:77-84 | escaped text holds no control character, angle bracket, ampersand or line separator |
| Json.ValueExtends | jobqueue/envelope.go:77-91 | a JSON value is recognised with the same extent inside any longer text |
| Json.MembersReadBack | jobqueue/envelope.go:77-91 | written members read back with decoded keys and verbatim values |
| Json.WrittenObject | jobqueue/envelope.go:77-91 | so does a written object, the empty one included |
| Envelope.UnknownFieldsIgnored | jobqueue/envelope.go:23-26 | members without a field do not affect decoding, wherever they stand |
| Envelope.UnwrapGate | jobqueue/envelope.go:89-107 | every JSON object that gives no field twice, in any order, key spelling and spacing and with any unknown members, is read field by field and accepted exactly when the fields decode, the version is nonzero and at most 1, the tenant is a UUID and there is a payload |
| Envelope.OrderDoesNotMatter | jobqueue/envelope.go:35-42 | decoding members in order equals looking each field up wherever it stands, when no field is given twice |
| Envelope.NegativeVersionAccepted | jobqueue/envelope.go:94-99 | an envelope of version -1 is accepted for every tenant UUID and payload |
| Envelope.UnwrapUndoesWrap | jobqueue/envelope.go:69-107 | for every tenant, request id and JSON payload, Unwrap undoes WrapWithRequestID, and the wrap fails exactly on a bad tenant |
| Envelope.WireFormat | jobqueue/envelope.go:55-84 | the exact text written; an empty request id gives the text of plain Wrap |
| Envelope.QueueKeepsCorrelation | jobqueue/correlation.go:71-122 | enqueueing and then WithEnvelope hands the handler the same tenant, payload and nonempty request id; the worker's own id survives only when the producer had none |

## Left out

Idealised or assumed:

- SHA-256 is its framed input (collision-free), AES-256-GCM an ideal seal/open pair with the nonce as an argument, `uuid.Parse` an arbitrary predicate; `Scheduler.UuidText` lists the text forms google/uuid v1.6.0 documents for it.
- Event ids become visible in increasing order; every settings write is stamped above all earlier stamps; one poll loop per manager; no scan errors.
- encoding/json's limit of 10000 nesting levels, and its replacement of invalid UTF-8: text is Unicode scalar values.
- A payload or provider config enters as the JSON text `json.Marshal` gave for it, or as its failure.
- Transaction callbacks change no session settings, and a commit whose reply is lost counts as either cut before it or done.

Contracts narrower than the code:

- Settings.CompletePollAgreesWithReload: deleted keys and keys that became secret stay cached in the code; the statement says exactly when that matters.
- Settings.WatermarkIsSound: starts from a complete load; an incomplete one is `Settings.PartialLoadSoundExactlyWhen`.
- RateLimit.WindowBound: needs clock readings judged in order; for late ones `RateLimit.LaggedWindowBound` has a bound that grows with the lag.
- EventBus.PostgresBus.PollOnce: runs without interference; interleavings are the step machine's.
- Cleanup.StepKeeps: `tick` is a sequence of atomic steps on values, not an object updated in place, because its promise is about many replicas at once.
- TenantCache.ServedIsFresh: step 3 of `resolveTenant` is likewise split into steps at its lock boundaries; steps 1 and 2 are header reads and are not modelled.

Not modelled:

- Scheduler: `Entries`, `Start`, `Stop`, queue options other than the queue name.
- httpclient: `GetJSON`, `Do`, `NotifyAsync`, headers, options.
- settings: the disk cache, the Valkey subscriber, construction from the environment, `Start`, `Get` and `GetAll`.
- featureflags: the TTL-triggered background refresh, flag parsing, the static store.
- middleware: `clientIP` and the HTTP wrapper of the limiter.
- dbpool: DSN parsing and the deprecated constructors.
- encryption: `MaskSecret`, which would only add easy members.
- provider, syncnotifier, health, metrics, tracing, logging, cost, config, quota, auth, sessions, kms, the Valkey packages and the Redis event bus: plumbing, single comparisons, or thin clients of services not visible here.
