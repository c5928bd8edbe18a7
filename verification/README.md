# Fluxor-DB: verified models of the cache, the connection gate, the TCP layer and their clients

Fluxor-DB wraps `database/sql`. The SQL parts are plumbing; this project models the
engines inside it whose promises are about whole runs, and proves those promises.

| module | models |
|---|---|
| `LruModel`, `LruHistory`, `LruInclusion` | the LRU cache with TTL as a pure sequence machine, and what a history of calls says about it |
| `LruCache` | the cache as it is: a doubly linked ring of heap elements with a sentinel, a key index, four counters |
| `RateLimiter` | the integer token bucket with truncated refill, against an ideal fluid bucket |
| `CircuitBreaker`, `BreakerThreads` | the breaker with atomic methods, and every interleaving of the separate loads, stores and locks of any number of threads |
| `ConnectionLimiter`, `LimiterThreads` | the slot limiter with its optional semaphore, atomic and interleaved |
| `Gate`, `GateThreads`, `GateSolo` | the three composed: `Allow`, `Release`, `RecordSuccess`, `RecordFailure`, `ExecuteWithGate`, with atomic calls, under every interleaving, and the first as the undisturbed case of the second |
| `IpLimiter` | the per-IP rate check as a greedy filter |
| `MessageServer` | size check, rate check, idempotency check, runtime and idempotency store of one message |
| `Tags` | the hand-written tag printer and parser of the database blob storage |
| `QueryCache` | `QueryCached`, a read-through client of the cache |
| `Retry` | the retry loop and its backoff |

Objects whose methods change fields are classes here too. Each such method is proved
equal to a step function on values (`Model() == SetStep(old(Model()), ...)`), and the
theorems are about runs of those step functions. Times are integers of nanoseconds
passed in by the caller, one for each clock reading the code makes, in its order.
Several lemmas are written with sequences of events in which the last event is the
most recent call.

## What the code does where its documentation says otherwise

- `ARCHITECTURE.md:164` draws the trip as "failures > threshold"; the code trips at the
  maxFailures-th failure in a row (gate.go:231, `CircuitBreaker.TripsExactly`).
- `ARCHITECTURE.md:177` and `ARCHITECTURE.md:512` describe half-open as a 10 s period with
  limited requests; the code stores `halfOpenTimeout`, never reads it, and lets every
  caller through (gate.go:189-190, `CircuitBreaker.HalfOpenAdmitsAll`).
- `ARCHITECTURE.md:500` gives 1000 requests per second as the default rate; without a
  configuration the code fills at 100 per second with a depth of 1000 (gate.go:255-259).
- `ExecuteWithGate` never gives the slot of a successful call back
  (gate.go:415), and nothing in the repository calls `ConnectionGate.Release`
  (`Gate.SlotLeak`, `Gate.LeakReachable`, `Gate.FullForever`).
- The field comment of `RateLimitPerIP` speaks of requests per second (tcp_server.go:43);
  its size has no effect, the spacing is one second (tcp_server.go:482-485,
  `IpLimiter.SizeIgnored`).
- The parser of the tags reads a text that only looks like JSON; which maps survive is
  stated exactly by `Tags.RoundTripExactly`.

## Model

| member | source | states |
|---|---|---|
| LruModel.StepValid | cache.go:69-148 | every Get, Set, Delete and PurgeExpired keeps the keys distinct and the length within the capacity, and never changes capacity or default TTL |
| LruModel.RunValid | cache.go:57-148 | the same after any run |
| LruHistory.GetAnswersLastWrite | cache.go:69-129 | over any run with a clock that does not go back, a Get answers exactly with the most recent Set of its key that no Delete undid, provided that Set is fresh at that moment and the key was not pushed out since; in every other case it misses |
| LruHistory.HistoryInvariant | cache.go:69-171 | the invariant behind it: a key is listed with value and expiry of its last write, and a key with a last write is missing only when it was pushed out or is no longer fresh |
| LruHistory.FindAfterStep | cache.go:69-148 | for every key at once, what each operation does to what is found under that key, including keys it does not name |
| LruHistory.ListOrderedByTouch | cache.go:88-117 | after any run the list is strictly ordered by the time of the last Set or hit, so the evicted tail is the least recently touched key |
| LruHistory.EvictionNeedsTouches | cache.go:107-115 | a key is pushed out only after at least `capacity` distinct other keys were Set or hit since its own last Set or hit |
| LruHistory.Retention | cache.go:69-120 | a fresh undeleted key must hit, with its last value, while fewer than `capacity` distinct other keys were Set or hit since its last touch |
| LruHistory.RetentionExact | cache.go:69-120 | the bound is exact: when nothing was deleted or has expired, a fresh key hits if and only if fewer than `capacity` others were touched since |
| LruHistory.Accounting | cache.go:69-161 | Sets of absent keys = items + evictions + expired + Deletes of present keys, and hits + misses = Gets, over any run |
| LruHistory.CountersExactly | cache.go:69-161 | each counter on its own over any run: hits are the Gets of keys whose last undeleted Set is fresh and not pushed out, misses all other Gets, evictions the entries pushed out, and the expired count the entries that a Get or a purge found past their expiry |
| LruInclusion.Inclusion | cache.go:69-148 | no Belady anomaly: under any common run the list of a smaller cache is a subsequence of a larger one's, equal in values and expiries, and the larger has at least as much room left |
| LruInclusion.IncludedStep | cache.go:69-148 | each single operation at one clock reading keeps that relation |
| LruInclusion.HitsIncluded | cache.go:69-91 | after any common run, whatever hits in the smaller cache hits in the larger with the same value |
| LruInclusion.HitsMonotone | cache.go:69-91 | so the larger cache never counts fewer hits |
| LruCache.ElementList.constructor | cache.go:63 | a new ring holds nothing but its sentinel |
| LruCache.ElementList.Remove | cache.go:81 | unlinking one element leaves a well-formed ring of exactly the others in order |
| LruCache.ElementList.PushFront | cache.go:117 | a new element stands first, the rest follow unchanged |
| LruCache.ElementList.MoveToFront | cache.go:88 | the element stands first, the others keep their order |
| LruCache.ElementList.Back | cache.go:109 | the last element of the ring, or nil |
| LruCache.ElementList.Prev | cache.go:139 | the element before, or nil at the front |
| LruCache.Lookup | cache.go:73 | the index answers what a search of the list would, and removing the found position removes that key |
| LruCache.IndexedRemove | cache.go:81-82 | taking an element out of ring and index keeps the index exact |
| LruCache.IndexedInsert | cache.go:117-118 | putting a new key in front of the ring and into the index keeps the index exact |
| LruCache.IndexedTouch | cache.go:88 | moving to the front keeps the index exact |
| LruCache.InMemoryCache.constructor | cache.go:57-67 | a new cache is the empty machine; a capacity of zero or less becomes 1024 |
| LruCache.InMemoryCache.Present | cache.go:73 | index and ring never disagree about a key |
| LruCache.InMemoryCache.ModelValid | cache.go:42-55 | a well-formed heap represents a valid machine state |
| LruCache.InMemoryCache.Get | cache.go:69-91 | on the heap, Get keeps ring and index well formed and is the machine's Get, result and counters included |
| LruCache.InMemoryCache.Set | cache.go:93-120 | on the heap, Set is the machine's Set: update in place and promote, or evict the tail and insert in front |
| LruCache.InMemoryCache.Delete | cache.go:122-129 | on the heap, Delete removes exactly the key |
| LruCache.InMemoryCache.PurgeExpired | cache.go:131-148 | the backward loop that removes in place equals an order-preserving filter, and counts every entry it drops |
| LruCache.InMemoryCache.Visit | cache.go:138-147 | one visit of that loop decides one entry and goes on to the right neighbour although the ring has changed |
| LruCache.InMemoryCache.Stats | cache.go:150-161 | the counters reported are those of the machine |
| RateLimiter.Limiter.constructor | gate.go:254-268 | a new bucket is full; depth is ten times the rate, or 1000 at rate 100 |
| RateLimiter.Limiter.Allow | gate.go:271-291 | Allow is the bucket's step and keeps the tokens between zero and the depth |
| RateLimiter.CoversStep | gate.go:271-291 | one call: if the ideal bucket covers the code's, it can pay whenever the code admits, and still covers it afterwards |
| RateLimiter.RefinesIdeal | gate.go:271-291 | over every monotone run an ideal fluid bucket of depth maxTokens + 1 and the same rate, charged exactly for the admitted calls, stays ahead of the code's bucket |
| RateLimiter.AdmissionIsPaid | gate.go:271-291 | every single admission of a run is one the ideal bucket can pay for at that moment |
| RateLimiter.TotalBound | gate.go:254-291 | since construction at most maxTokens + floor(rate * elapsed) calls are admitted |
| RateLimiter.AnyWindow | gate.go:254-291 | in any window of any run fewer than maxTokens + 1 + rate * length calls are admitted |
| RateLimiter.DepthExactly | gate.go:254-291 | for the windows that start at or after the last call of any run: at most maxTokens + rate * length calls are admitted, whatever comes, if and only if there has been a call, or the window starts at construction, or the idle time since construction is worth a token |
| RateLimiter.DepthOfBucket | gate.go:279-283 | the same for every bucket: the one case in which depth maxTokens is not enough is a full bucket idle for some time worth less than a token |
| RateLimiter.BurstAndOne | gate.go:279-283 | in that case maxTokens calls at once and one at the next token exceed the bound |
| RateLimiter.DepthMaxTokensFails | gate.go:279-283 | an instance with concrete numbers |
| RateLimiter.ReachableWindowStart | gate.go:271-291 | in every reachable state the time since lastRefill is worth less than one token |
| RateLimiter.SustainedRate | gate.go:271-291 | calls at least 1/rate apart are never refused, the first of them counted from lastRefill |
| RateLimiter.FullBurst | gate.go:271-291 | after an idle time worth the depth, a burst of exactly maxTokens is served and the next call refused |
| RateLimiter.BurstExactly | gate.go:271-291 | from any bucket and at any moment, k calls at once are admitted exactly as far as tokens + floor(rate * time since lastRefill) reach, up to maxTokens |
| RateLimiter.RefusedAfterHalf | gate.go:271-291 | from below, over whole runs: when a call is refused, all tokens that were there and more than half of the whole tokens that have flowed in since any earlier moment have been handed out, as long as the bucket could hold them |
| CircuitBreaker.Guard.constructor | gate.go:144-165 | a new breaker is closed with the configured or default threshold and timeout |
| CircuitBreaker.Guard.Allow | gate.go:168-197 | Allow is the breaker's step |
| CircuitBreaker.Guard.RecordSuccess | gate.go:200-214 | RecordSuccess is the breaker's step |
| CircuitBreaker.Guard.RecordFailure | gate.go:217-237 | RecordFailure is the breaker's step |
| CircuitBreaker.FieldsTellHistory | gate.go:168-237 | over any run: while closed the counter is the number of failures since the last success and below the threshold, half-open has none, lastFailureTime is the latest failure |
| CircuitBreaker.TripsExactly | gate.go:217-237 | a closed breaker opens at exactly the maxFailures-th failure since the last success |
| CircuitBreaker.RefusedExactly | gate.go:168-197 | a call is refused if and only if the breaker is open and no more than resetTimeout has passed since the latest failure |
| CircuitBreaker.NextStateExactly | gate.go:144-237 | the state after any further event, from the history and the configured numbers: failures trip at the threshold and always in half-open, failures while open extend the outage, only an admitted call leaves open, only a success turns half-open to closed |
| CircuitBreaker.OpenWindow | gate.go:173-187 | an open breaker stays open through any further history if and only if every call comes within resetTimeout of the failure then latest; failures recorded while open push the window out |
| CircuitBreaker.RecoveryNeedsProbe | gate.go:168-237 | with atomic methods, a breaker that was open and is closed has since admitted a call strictly more than resetTimeout after the failure then latest, and after that recorded a success while half-open |
| CircuitBreaker.HalfOpenAdmitsAll | gate.go:189-190 | in half-open any number of calls is admitted and none of them changes anything |
| BreakerThreads.InvStep | gate.go:168-237 | every single load, store or lock operation of any thread keeps the lock and data invariant |
| BreakerThreads.InvRun | gate.go:168-237 | so does every interleaving |
| BreakerThreads.SettledWhenFree | gate.go:168-237 | under every interleaving of any number of threads, whenever nobody holds the mutex for writing, closed has fewer than maxFailures counted failures and half-open none |
| BreakerThreads.MutualExclusion | gate.go:169-186 | a thread in a write section excludes every other write section and every reader |
| BreakerThreads.StampedRun | gate.go:168-237 | under every interleaving, open is neither entered nor loaded before a failure has been timed |
| BreakerThreads.AdmittedAfterTimeout | gate.go:174-184 | under every interleaving, a thread that saw open and is about to return nil does so strictly more than resetTimeout after the latest recorded failure, and there has been one |
| BreakerThreads.RaceOf | gate.go:168-214 | under every interleaving, a thread acting on a loaded state did load it, at its last load, and if the state is another one by now, another thread made the last change of state after that load |
| BreakerThreads.EntryStays | gate.go:168-237 | the state that was entered last in a run is still the state |
| BreakerThreads.StaleExactly | gate.go:168-214 | under every interleaving, a move takes open straight to closed, or closed to half-open, if and only if it is the store of a RecordSuccess or Allow whose last load read half-open or open and which another thread has overtaken: the last change of state came after that load, from another thread, into the state now overwritten |
| BreakerThreads.StaleSuccessReachable | gate.go:200-210 | a reachable state, for every timeout, in which a stale RecordSuccess takes open straight to closed |
| BreakerThreads.StaleAllowReachable | gate.go:168-184 | a reachable state, for every timeout, in which a stale Allow takes closed to half-open |
| BreakerThreads.AllowAlone | gate.go:168-197 | the moves of an undisturbed Allow add up to the atomic step |
| BreakerThreads.SuccessAlone | gate.go:200-214 | the moves of an undisturbed RecordSuccess add up to the atomic step |
| BreakerThreads.FailureAlone | gate.go:217-237 | the moves of an undisturbed RecordFailure add up to the atomic step |
| ConnectionLimiter.Slots.constructor | gate.go:294-313 | a new limiter holds no slot; only the block and timeout modes get a semaphore |
| ConnectionLimiter.Slots.Acquire | gate.go:316-326 | a slot is taken if and only if the counter is below the limit |
| ConnectionLimiter.Slots.AcquireWithContext | gate.go:329-375 | the outcome in every mode when no other thread releases a slot meanwhile: taken, refused, or ended by timer or context |
| ConnectionLimiter.Slots.Release | gate.go:378-387 | the counter goes down even when the semaphore was empty |
| ConnectionLimiter.OutcomeExactly | gate.go:316-375 | which outcome comes in which mode: taken if and only if a place is free, the context's error only when full and waiting, without a timer always and with one when the context comes first, the limit error otherwise; a refusal changes nothing |
| ConnectionLimiter.ReleaseUndoes | gate.go:378-387 | a release right after an acquire undoes it; without one, on an empty semaphore, only the counter goes down |
| LimiterThreads.SemaphoreBalance | gate.go:329-387 | under every interleaving: len(sem) = counter + sent but not counted - received but not counted + finished releases that found the semaphore empty, 0 <= len(sem) <= maxConnections, and the counter exceeds the limit by at most the releases in progress |
| LimiterThreads.BalancedStep | gate.go:329-387 | every single channel or counter operation keeps that balance |
| LimiterThreads.OvershootsExactly | gate.go:329-387 | the counter exceeds the limit if and only if releases received but not counted outnumber the free places, the acquires sent but not counted and the releases that found the semaphore empty |
| LimiterThreads.CounterOvershoots | gate.go:337-340 | an instance: an interleaving with limit 1 in which the counter reads 2 |
| LimiterThreads.DropModeBound | gate.go:316-326 | without a semaphore the counter never exceeds the limit, under every interleaving |
| LimiterThreads.BoundedStep | gate.go:316-326 | every single move keeps that bound, because the mutex covers test and add |
| LimiterThreads.AcquireAlone | gate.go:337-340 | the moves of an undisturbed acquire of a free slot add up to the atomic step |
| LimiterThreads.ReleaseAlone | gate.go:378-387 | the moves of an undisturbed release add up to the atomic step |
| LimiterThreads.WaiterTakes | gate.go:345-370 | a waiting acquire that finds a place free takes it as the atomic one would |
| Gate.ConnectionGate.constructor | gate.go:70-76 | the gate starts from the three new parts |
| Gate.ConnectionGate.Allow | gate.go:101-120 | breaker, then bucket, then slot; a refusal by bucket or slot is recorded as a failure, and no slot is taken |
| Gate.ConnectionGate.ReleaseSlot | gate.go:123-125 | gives a slot back and touches nothing else |
| Gate.ConnectionGate.RecordSuccess | gate.go:128-130 | touches the breaker only; also what a Commit without error does |
| Gate.ConnectionGate.RecordFailure | gate.go:133-136 | a breaker failure and a released slot; also what a failed Commit or Rollback does |
| Gate.ConnectionGate.Execute | gate.go:395-417 | the operation runs if and only if all three let it pass; its result is returned exactly on success |
| Gate.Conservation | gate.go:101-136 | over any run of calls, Releases, outside failures and successes: calls = breaker-refused + rate-refused + slot-refused + failed + succeeded, and the counter = succeeded - Releases - outside failures |
| Gate.BucketProjection | gate.go:101-120 | the bucket inside the gate is a bucket that saw exactly the calls the breaker let pass, and its admissions = slot-refused + failed + succeeded |
| Gate.BreakerProjection | gate.go:101-136 | the breaker inside the gate is a breaker that saw the derived history in which rate and slot refusals are failures |
| Gate.OutageFreezes | gate.go:101-105 | from an open breaker on, a run of calls is refused by the breaker to the last one if and only if each comes within resetTimeout of the latest failure, and then breaker, tokens and slots are as they were |
| Gate.ExecutedBound | gate.go:271-291 | over a whole run at most maxTokens + floor(rate * elapsed) operations are executed |
| Gate.SlotsAreHeld | gate.go:329-387 | the slots held by earlier successes, computed from the history, are what the limiter's fields say, and never exceed the limit |
| Gate.SuccessesNeedReleases | gate.go:395-417 | successes never exceed maxConnections + Releases + outside failures |
| Gate.SlotLeak | gate.go:395-417 | a call that breaker and bucket let pass is refused if and only if maxConnections slots are held by earlier successes; without a semaphore these are successes - Releases - outside failures, with one at least as many |
| Gate.FullForever | gate.go:395-417 | from then on, while nobody calls Release and no Commit or Rollback fails, no operation is ever executed again |
| Gate.LeakReachable | gate.go:395-417 | under every configuration maxConnections successful calls a second apart fill the limiter, and the next call is refused for want of a slot |
| GateThreads.InvStep | gate.go:101-136 | every move of any thread anywhere in ExecuteWithGate, Release or RecordFailure keeps the books balanced, the calls that tell the breaker of failures and successes included, and the bucket a bucket with that history |
| GateThreads.BooksBalance | gate.go:101-136 | under every interleaving: counter, tokens, calls, operations, and the failures and successes told to the breaker are accounted for, each up to the threads that are on their way |
| GateThreads.Quiescent | gate.go:395-417 | whenever no call is in progress, however the calls before were interleaved: counter = successes - Releases - outside failures; calls = breaker-refused + rate-refused + slot-refused + failed + succeeded; failures told to the breaker = rate-refused + slot-refused + failed + outside failures; successes told = succeeded + outside successes |
| GateThreads.ExecutedBound | gate.go:271-291 | under every interleaving at most maxTokens + floor(rate * elapsed) operations are begun |
| GateThreads.PartsAreParts | gate.go:101-136 | breaker and limiter inside the gate are in states their own threaded models reach, so everything proved there of every interleaving holds here |
| GateThreads.RunningBound | gate.go:316-326 | in drop mode, slots kept by successes and those of running operations together never exceed the limit |
| GateThreads.NeverBlockedOutside | gate.go:395-417 | a thread outside breaker and limiter can always make its next call: it is never still inside one of them |
| GateSolo.ExecuteAlone | gate.go:395-417 | an undisturbed ExecuteWithGate in the threaded gate is the atomic one in breaker, bucket, limiter, ending and books, for every ending: refused by breaker, bucket or limiter, failed, succeeded |
| GateSolo.ReleaseAlone | gate.go:123-125 | an undisturbed Release is the atomic one |
| GateSolo.OutsideFailureAlone | gate.go:133-136 | an undisturbed RecordFailure from outside is the atomic one |
| GateSolo.OutsideSuccessAlone | gate.go:128-130 | an undisturbed RecordSuccess from outside is the atomic one |
| GateSolo.EndsOnce | gate.go:395-417 | the state in which an undisturbed call ends is unique |
| GateSolo.NoOtherMove | gate.go:395-417 | a thread on its way has no other moves than those, but for the outcome of its operation and giving up a wait while a place is free |
| GateSolo.QuietRests | gate.go:395-417 | at every quiet moment of every interleaved run these four results apply |
| GateSolo.StartsNew | gate.go:70-76 | a new threaded gate is a new gate |
| IpLimiter.RateLimits.CheckRateLimit | tcp_server.go:466-489 | the check is the limiter's step |
| IpLimiter.AdmittedAfter | tcp_server.go:482-488 | admitted requests of one address are at least one second apart, and apart from the recorded one |
| IpLimiter.Independence | tcp_server.go:466-489 | the decisions about an address are those of the run with all other addresses struck out |
| IpLimiter.LaterCostsAtMostOne | tcp_server.go:482-488 | having admitted later costs at most one further admission |
| IpLimiter.GreedyStaysAhead | tcp_server.go:482-488 | greedy admission is never behind any spaced choice |
| IpLimiter.GreedyOptimal | tcp_server.go:466-489 | over any monotone run the admitted requests of an address are spaced by a second, and no spaced choice among its requests is larger |
| IpLimiter.SizeIgnored | tcp_server.go:467-485 | any two positive limits decide every run alike |
| IpLimiter.OffAdmitsAll | tcp_server.go:467-469 | a limit that is not positive lets everything through and records nothing |
| IpLimiter.RefusedExactly | tcp_server.go:466-489 | over any run, a request is refused if and only if the limit is on and the latest admitted request of its address is less than 10^9 ns old |
| MessageServer.TcpServer.constructor | tcp_server.go:49-77 | a new server has no recorded requests and, with idempotency on, an empty cache of 10000 entries and 300 s |
| MessageServer.TcpServer.CheckIdempotency | tcp_server.go:492-505 | the check is a Get of the cache, and nothing without cache or key |
| MessageServer.TcpServer.StoreIdempotency | tcp_server.go:508-515 | the store is a Set for 300 s, and nothing without cache, key or response |
| MessageServer.TcpServer.HandleMessage | tcp_server.go:219-274 | the heap server handles one message as the step on values: same reply, same new state, runtime asked or not |
| MessageServer.TcpServer.Execute | tcp_server.go:253-263 | a response is stored exactly when the runtime succeeded and it could be encoded |
| MessageServer.CacheRefines | tcp_server.go:219-274 | after any serialised run the server's cache is a cache that saw only the idempotency checks and stores |
| MessageServer.WritesAreStores | tcp_server.go:508-515 | the latest write of a key in that cache is the latest successful execution under the key; failed executions are never stored |
| MessageServer.RateLimitedExactly | tcp_server.go:233-237 | over any run the server's rate decisions are those of the per-IP limiter on the own addresses of the messages that are not too large |
| MessageServer.ReplyExactly | tcp_server.go:219-274 | the answer to any message after any serialised run, by its fields: too large exactly above a positive maximum under protection, then rate limited, then replayed when a live response is stored; after that EXEC and QUERY, and nothing else, ask the runtime and get its data under their own ID, key or no key, or an error; unknown types an error, the others their information |
| MessageServer.AtMostOnce | tcp_server.go:240-263 | within 300 s of the latest stored execution and while fewer than 10000 other keys were touched since, no message with the key reaches the runtime, and each that passes the size and rate checks gets that stored response |
| MessageServer.ReplayIsLastStored | tcp_server.go:492-505 | whatever is replayed is the latest stored execution of that key, at most 300 s old |
| MessageServer.OncePerSession | tcp_server.go:240-263 | in a session of at most 300 s and 10000 keys every key is executed successfully at most once |
| MessageServer.HandleSplits | tcp_server.go:219-274 | a message handled alone is its part before the runtime followed by runtime and store |
| MessageServer.InterleavedTwice | tcp_server.go:240-263 | without serialisation at-most-once fails: from the moment one message goes on to the runtime, and through any interleaving of beginnings and ends of other messages that stores nothing under its key, another with the same key reaches the runtime too if and only if it passes the size and rate checks |
| MessageServer.PartsRefine | tcp_server.go:219-274 | after any interleaving of messages on a monotone clock the cache is one that saw only their checks and stores |
| MessageServer.ReachesRuntimeExactly | tcp_server.go:219-274 | over every interleaving of any number of connections: a message that passes the size and rate checks is answered from the cache if and only if an execution is stored under its key, at most 300 s old and not pushed out, and with the latest such one; otherwise EXEC and QUERY reach the runtime |
| MessageServer.ExecutedTwice | tcp_server.go:240-263 | an instance from a new server under every configuration: two messages with one key are both executed and stored |
| Tags.SerializeTags | blob.go:169-177 | the text is the printed form of the map in some order, each key once; empty exactly for no tags, else in braces |
| Tags.PrintExactly | blob.go:170-176 | the printed text from outside: a single tag literally, and what one more tag adds before the closing brace |
| Tags.ParseTags | blob.go:217-232 | the loop of splits and trims computes the parse of the text |
| Tags.ParseExactly | blob.go:217-232 | what any text parses to: freed of braces at its ends and cut at its commas, each key has the value of the last piece with that key |
| Tags.JoinSplit | blob.go:222 | joining the pieces of a split gives the text back |
| Tags.TrimExactly | blob.go:220-227 | a trim takes away characters of the set at both ends, and all of them |
| Tags.CleanRoundTrip | blob.go:169-232 | a clean map comes back from its text, whatever the order |
| Tags.RoundTripExactly | blob.go:169-232 | in every order a map comes back if and only if no key or value has a comma, no key a colon, and none starts or ends with a double quote |
| Tags.ParseClean | blob.go:300-314 | whatever text is parsed, the resulting map is clean in that sense |
| Tags.ParseStable | blob.go:169-232 | for every text and order, parse(print(parse(s))) = parse(s) |
| Tags.StoreAndRetrieve | blob.go:169-232 | printing and parsing by the loops themselves gives the map back if and only if it is clean |
| Tags.Losses | blob.go:174-227 | two concrete maps that do not come back |
| QueryCache.ScanRow | dbruntime.go:239-251 | in place, cell by cell: bytes become the text of the same characters, every other cell stays |
| QueryCache.Materialize | dbruntime.go:232-256 | a table if and only if the database gave a cursor, every row is as wide as the columns and iteration did not fail; then with its columns, its number of rows, and each cell as ScanRow shows it |
| QueryCache.DirectExactly | dbruntime.go:226-265 | the same of the direct answer that the run results speak of |
| QueryCache.DBRuntime.QueryCached | dbruntime.go:214-266 | the call on the heap cache is the step on values; without a cache it is the direct answer |
| QueryCache.CacheRefines | dbruntime.go:214-266 | after any run of queries, deletions and purges the cache is one that saw only their Gets, Sets, Deletes and purges |
| QueryCache.WritesAreFills | dbruntime.go:258-263 | the latest write of a key is the latest direct answer stored under it |
| QueryCache.ServedFromCacheExactly | dbruntime.go:214-224 | a result is flagged fromCache if and only if an answer is stored under the key, within its effective TTL and not pushed out; and then it is that answer |
| QueryCache.AnswerExactly | dbruntime.go:214-266 | the answer of a call in full: the stored one exactly when it is live, else the rows of the database cell by cell, or an error exactly when the database did not answer in full |
| QueryCache.BoundedStaleness | dbruntime.go:214-266 | a result flagged fromCache was stored at most its effective TTL ago |
| QueryCache.CachingIsTransparent | dbruntime.go:214-266 | over a constant database with one query for each key, every successful result is the direct answer |
| Retry.CheckRetry | db.go:419-433 | an error is worth a retry if and only if it is in the list, or the deadline or cancellation error |
| Retry.RetryLoop | db.go:97-126 | for every policy and any cancellation: which attempts are made, what the result is, and the exact waits in closed form |
| Retry.RetryUncancelled | db.go:144-173 | without cancellation the operation runs exactly up to the first success, first non-retryable error, or attempt MaxRetries + 1; with a negative MaxRetries not at all |
| Retry.StopUnique | db.go:144-173 | that stopping point is unique |
| Retry.WaitDoubles | db.go:108-111 | doubling with a cap follows the closed form, whose first wait is not capped, for caps of either sign |
| Retry.WaitsExactly | db.go:99-112 | the waits one by one: the first is the initial backoff, each further one twice the one before, capped |
| Retry.TotalWait | db.go:101-112 | closed bounds on the total waiting time |
| Retry.TotalWaitAtLeast | db.go:101-112 | from below: no wait is shorter than the first one, unless the cap is |
| Retry.TotalWaitExactly | db.go:101-112 | below the cap, n waits last exactly InitialBackoff * (2^n - 1) |
| Retry.PolicyBuilt | db.go:398-416 | the constructed policy: 3 retries and waits of 100, 200 and 400 ms unless configured, and a cap of 5 s |
| Retry.DriverErrorsAreFinal | db.go:398-433 | with the policy the constructor builds, only deadlines and cancellations are ever retried |

## Left out

- Floating point and int64 overflow: `int64(elapsed.Seconds()*float64(rate))` is the exact truncation of elapsed nanoseconds times rate over 10^9, the backoff multiplier 2.0, the only one the constructor sets, is doubling, counters and durations are unbounded.
- Clock: an expiry that happens to equal Go's zero time, wall-clock steps backwards (the run theorems assume a monotone clock where they say so), and the saturation of time differences.
- SQL: drivers, `sql.DB`, `sql.Rows`, pool settings, warm-up, timeouts and arguments; the database is an oracle of outcomes.
- `container/list` and the `strings` functions are written out from their documented behaviour, since their sources are not part of the repository.
- Sockets, accept loop, scanner, deadlines, JSON encoding and all of tcp_client.go; in particular a replay carries the first message's ID, which the client's ID check rejects (tcp_client.go:251), so nothing is claimed about what clients accept.
- The contents of PING, STATS and METRICS answers and of error texts: the message model only says that one is sent.
- allowConnection: the IP lists and the lifetime count of connections, which is only ever incremented (tcp_server.go:459).
- The callback onStateChange of the breaker, which nothing in the repository sets, and `halfOpenTimeout`, which nothing reads.
- ConnectionLimiter.Slots.AcquireWithContext: a wait that another thread's release ends, or that never ends, is not an atomic call; both are in `LimiterThreads` and `GateThreads`.
- LimiterThreads.SemaphoreBalance: `Acquire` called directly on a limiter that has a semaphore, which the gate never does, is not among the moves.
- BreakerThreads.InvRun: loads, stores and adds are sequentially consistent as Go's atomics are; the lock is the usual reader-writer lock without its queue, so fairness is not modelled.
- GateThreads.InvStep: the bucket's Allow is one move, since its mutex covers its whole body; the outcome of an operation is free.
- Cache methods under threads: each holds the cache's mutex for its whole body, so runs of atomic calls are all there are; the returned tables are shared with the cache, and a caller that writes into one is not modelled.
- MD5, the filesystem blob storage, the tags column of the database and the other columns.
- AdvancedTx: only what Commit and Rollback report to the gate.
- DBMetrics, PreparedStatementCache, configuration builders, monitoring, error types: wiring or easy.
