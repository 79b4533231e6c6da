# microservice-essentials: a verified model

microservice-essentials wraps the processing of a request in stacked hooks: caching, circuit breaking, retrying,
exception handling, error forwarding, token authentication, claim checking. This project models the stateful parts of
that library in Dafny and proves what they keep over whole runs.

| file | what it models |
|---|---|
| `Statuses.dfy` | status codes, statuses, exceptions, and the two ways a call can end |
| `LruCache.dfy` | the map-backed cache and the LRU decorator, with its list nodes and stored iterators |
| `ExactLru.dfy` | when the decorator is an exact least-recently-used cache, and when it is not |
| `CachingHook.dfy`, `CachingRuns.dfy` | the caching hook over either cache, and sequences of requests through it |
| `CachingConcurrency.dfy` | any number of requests interleaved between the operations of one shared cache |
| `InterleavedLru.dfy` | which interleaved runs keep a shared LRU cache exact |
| `UInt32.dfy` | 32-bit counters |
| `CircuitBreaker.dfy` | the breaker's counters, and its protocol as a transition system over any number of requests |
| `BreakerLimits.dfy` | what the breaker guarantees up to how many requests, with the exact bound |
| `Retry.dfy` | back-off strategies and the retry hook, with a clock |
| `Exceptions.dfy`, `Pipeline.dfy` | exception mappers, error forwarding, `RequestHook::Process`, `RequestProcessor` |
| `ParentGraph.dfy`, `Metadata.dfy`, `Contexts.dfy` | the graph of contexts, metadata lookup, the `Context` class |
| `Words.dfy`, `ClaimPipeline.dfy` | joining and splitting scopes, token authentication, claim checks |
| `Urls.dfy`, `UrlNormalForm.dfy` | the URL printer, and the URL regular expression as a backtracking search |

Code that changes things step by step is a class with methods or a method with a loop, proved against a specification
function; what the library promises is proved about those functions.

## How the model reads the code

- A `std::list` node keeps its identity while it moves, so an iterator is modelled by the node (`LruCache.Node`). The
  list operations require their node to be in the list, so handle safety is a proof obligation of every call.
- An LRU cache needs room for one element: with `maxSize` 0 the eviction loop reads the back of an empty list. The
  backing cache starts empty and is owned by the decorator.
- Every locked region is one atomic step. `CachingConcurrency` and `CircuitBreaker` interleave these steps freely; the
  other modules treat calls one after the other.
- A request keeps its "request" metadata while it is processed, so the breaker counts it under one name throughout.
- The arguments of the trace macros are evaluated whether or not anything is logged, and `to_string` throws on the
  reserved code `invalid`. `RequestHook::Process` therefore throws when `pre_process`, the wrapped function or
  `post_process` returns that code; in the second case without having called `post_process`. The class comment has
  `post_process` called after the function; the model follows the code (`Pipeline.BracketedIff`).
- `W` in `Pipeline` stands for everything that hooks and functions can read and change, including the context and the
  hooks' own state, so hooks there are arbitrary.
- `std::multimap::find` yields the first of several values, as the common implementations do.
- The comment in `context.cpp` that every context but the global one has a parent does not hold once the global
  context is copied (`ParentGraph.OnlyGlobalStaysParentlessIff`).
- Durations are reals: sleeping takes exactly the requested time, and nothing at all when that is negative. The values
  of the jitter's random generator are arbitrary.
- The regular expression is matched in the priority order of ECMAScript backtracking; `.` matches any character but
  line feed and carriage return.

## Properties found not to hold in general

- Re-inserting a resident key into the LRU cache leaves a stale node behind and can evict a key just inserted
  (`ExactLru.InsertStaysExactIff`, `ExactLru.ReinsertEvictsEarly`). The caching hook never does this in sequential runs
  (`CachingRuns.ProcessOnExactLru`). Interleaved runs stay exact iff every insertion finds its key absent or about to be
  evicted (`InterleavedLru.RunStaysExactIff`), in particular if no lookup overlaps with a request for the same key that
  has not finished (`InterleavedLru.PoliteRunsAreExact`); two overlapping misses do not
  (`InterleavedLru.OverlappingMissesAreNotExact`).
- A request whose function returns the reserved code is never counted down by the circuit breaker, because
  `RequestHook::Process` throws before `post_process`. The counter is then too high for good: with all requests over it
  holds the number of counts lost (`CircuitBreaker.QuiescentIsClosedIff`,
  `CircuitBreaker.ReservedCodesAreNotCountedDown`), and once as many counts as the maximum are lost, the breaker refuses
  every further request of that name (`BreakerLimits.RefusesForever`). A run counts rightly iff lost counts and double
  decrements cancel out (`CircuitBreaker.CountsRightlyIff`).
- A circuit breaker configured with an error status that is OK counts a refused request down twice and lets more than
  the maximum run (`CircuitBreaker.ConservesIff`).
- 2^32 requests of one name in flight bring the breaker's counter back to 0, and then all of them run
  (`BreakerLimits.WrapAroundAdmitsAll`).
- So, with at most a given number of requests of a name in flight or lost, the breaker keeps its maximum, never counts
  below 0 and never forgets a loss iff nothing is decremented twice and the number is below 2^32, or the number is at
  most the maximum (`BreakerLimits.SafeIff`, `BreakerLimits.NoUnderflowIff`, `BreakerLimits.RefusesForeverIff`).
- With a retry limit of 2^32 - 1 the retry counter wraps around and the hook retries for ever if every attempt fails
  (`Retry.EndsIff`, `Retry.RunsForeverIff`).
- A request handler whose context lies below another context of the same thread throws
  (`ParentGraph.HandlerThrowsIff`, `ParentGraph.HandlerBelowThreadThrows`).
- The first required claim that a verified token lacks is erased, so that an inherited value of it shows through
  (`ClaimPipeline.InheritedClaimShowsIff`, `ClaimPipeline.MissingClaimShows`). The basic hook requires the scope only and
  never lacks it; hooks that require further claims are affected (`ClaimPipeline.InheritedTenantShows`).
- A URL with "@" in its path, query or fragment may be taken apart differently after printing
  (`Urls.RoundTripIff`, `Urls.AtInPathIsMisread`).

## Model

| member | source | states |
|---|---|---|
| LruCache.UnorderedMapCache.Insert | src/microservice-essentials/performance/caching-request-hook.cpp:137-141 | overwrites the entry of one key |
| LruCache.UnorderedMapCache.Get | src/microservice-essentials/performance/caching-request-hook.cpp:143-151 | the stored element, or the invalid one |
| LruCache.UnorderedMapCache.Remove | src/microservice-essentials/performance/caching-request-hook.cpp:153-157 | drops the entry of one key |
| LruCache.LRUCache.Insert | src/microservice-essentials/performance/caching-request-hook.cpp:163-182 | the eviction loop and the insertion, on every handle-safe state; nothing without a backing cache |
| LruCache.LRUCache.Get | src/microservice-essentials/performance/caching-request-hook.cpp:184-203 | returns the stored element of a found key, insertion time included, moves its node to the front through its stored handle, which is live, and leaves the backing cache as it was |
| LruCache.LRUCache.Remove | src/microservice-essentials/performance/caching-request-hook.cpp:205-222 | erases node and entry of a found key, through a live handle, and no other |
| LruCache.InsertKeepsSafe | src/microservice-essentials/performance/caching-request-hook.cpp:163-182 | any insert keeps all handles live, makes the element retrievable, evicts at most the back node's key and leaves all other entries alone |
| LruCache.InsertReplacesLast | src/microservice-essentials/performance/caching-request-hook.cpp:163-182 | the new node and element, and what was there without the back node and the entry it names if the list was full |
| LruCache.GetKeepsSafe | src/microservice-essentials/performance/caching-request-hook.cpp:184-203 | a lookup keeps every stored handle the frontmost live node of its key |
| LruCache.RemoveKeepsSafe | src/microservice-essentials/performance/caching-request-hook.cpp:205-222 | so does a removal |
| LruCache.GetChangesNoElement | src/microservice-essentials/performance/caching-request-hook.cpp:184-203 | a lookup changes the element of no key, the one looked up included |
| LruCache.RemoveDropsOneElement | src/microservice-essentials/performance/caching-request-hook.cpp:205-222 | a removal drops the element of its key and changes no other |
| LruCache.RunIsSafe | src/microservice-essentials/performance/caching-request-hook.cpp:159-222 | handle safety and map size <= list size <= capacity over every sequence of operations, re-inserts included |
| LruCache.RunHoldsLastInserted | src/microservice-essentials/performance/caching-request-hook.cpp:159-222 | after every sequence of operations a resident element is the one last inserted under its key, status and insertion time included |
| ExactLru.StepRefinesRecency | src/microservice-essentials/performance/caching-request-hook.cpp:163-222 | without re-inserts each operation does to the list what the textbook recency list does |
| ExactLru.InsertStaysExactIff | src/microservice-essentials/performance/caching-request-hook.cpp:163-182 | an insert keeps list and map in exact correspondence iff its key is absent or is the one being evicted |
| ExactLru.RunIsLeastRecentlyUsed | src/microservice-essentials/performance/caching-request-hook.cpp:163-222 | over every such run the list is ordered by last insertion or successful lookup |
| ExactLru.VictimIsLeastRecentlyUsed | src/microservice-essentials/performance/caching-request-hook.cpp:172-181 | the one key evicted is the one whose last use is oldest |
| ExactLru.ReinsertEvictsEarly | src/microservice-essentials/performance/caching-request-hook.cpp:172-181 | a run in which re-inserting makes the cache drop a key too early |
| CachingHook.CachingRequestHook.Handle | src/microservice-essentials/performance/caching-request-hook.cpp:109-135 | hit, expiry, miss and store over either cache: a fresh element is served; otherwise the function runs, and afterwards the cache holds exactly its result, with the written data and the storing time, if it returned a cacheable code, and nothing usable under the key if not |
| CachingHook.ServesOrCalls | src/microservice-essentials/performance/caching-request-hook.cpp:109-135 | the same of one request on values |
| CachingHook.OthersStayOrGo | src/microservice-essentials/performance/caching-request-hook.cpp:109-135 | elements of other keys stay as they are, or are evicted from an LRU cache |
| CachingHook.ProcessKeepsReady | src/microservice-essentials/performance/caching-request-hook.cpp:109-135 | every request through the hook keeps an LRU cache handle-safe |
| CachingHook.ProcessIsTransparent | src/microservice-essentials/performance/caching-request-hook.cpp:109-135 | if results depend on the key only, one request ends like a direct call and leaves the same object |
| CachingHook.CacheIsTransparent | src/microservice-essentials/performance/caching-request-hook.txx:6-11 | so does every request of every sequence, for any age limit, cacheable codes and cache |
| CachingConcurrency.StepStaysGood | src/microservice-essentials/performance/caching-request-hook.cpp:109-222 | each step of any of the interleaved requests keeps the cache handle-safe and true, and every request faithful |
| CachingConcurrency.SharedCacheIsTransparent | src/microservice-essentials/performance/caching-request-hook.cpp:109-222 | any number of interleaved requests over one shared cache, each hook with its own maximum age and cacheable codes: each request that is over ended as a direct call would |
| CachingConcurrency.AloneIsProcess | src/microservice-essentials/performance/caching-request-hook.cpp:109-135 | without interference the steps are the sequential hook |
| CachingRuns.ResidentAtInsertIff | src/microservice-essentials/performance/caching-request-hook.cpp:113-133 | a miss inserts over a resident key iff an empty value is stored under it |
| CachingRuns.ProcessOnExactLru | src/microservice-essentials/performance/caching-request-hook.cpp:109-135 | a sequential request never re-inserts and keeps the LRU cache exact; served or stored keys move to the front |
| CachingRuns.HookRunsAreExact | src/microservice-essentials/performance/caching-request-hook.cpp:109-222 | all sequential runs through the hook are exact LRU |
| InterleavedLru.StepStaysExactIff | src/microservice-essentials/performance/caching-request-hook.cpp:109-222 | a step of an interleaved request keeps the LRU cache exact iff it does not insert over a resident key that stays |
| InterleavedLru.RunStaysExactIff | src/microservice-essentials/performance/caching-request-hook.cpp:109-222 | so a whole interleaved run stays exact iff no insertion of it does |
| InterleavedLru.PoliteRunsAreExact | src/microservice-essentials/performance/caching-request-hook.cpp:109-222 | it does if no lookup happens while another request for its key is between its own lookup and its end |
| InterleavedLru.OverlappingMissesAreNotExact | src/microservice-essentials/performance/caching-request-hook.cpp:109-135 | the interleaved run of two overlapping misses leaves a stale node, iff the cache has room for more than one element |
| CachingRuns.RecentIsByLastRequest | src/microservice-essentials/performance/caching-request-hook.cpp:109-222 | moving keys to the front at each request lists each requested key once, by last request |
| CachingRuns.ListIsRecentKeys | src/microservice-essentials/performance/caching-request-hook.cpp:109-222 | with cacheable results the LRU list is the front of that list, up to the capacity |
| CachingRuns.ListIsMostRecentlyRequested | src/microservice-essentials/performance/caching-request-hook.cpp:109-222 | that is, ordered by last request, and every requested key left out was last requested before all keys in a full list |
| CachingRuns.StackInclusion | src/microservice-essentials/performance/caching-request-hook.cpp:109-222 | a smaller LRU cache holds a prefix of a larger one; without expiry its hits are hits in the larger |
| CachingRuns.MapHoldsLatest | src/microservice-essentials/performance/caching-request-hook.cpp:109-157 | the map holds the latest stored result of a key, or nothing once that was found expired |
| CachingRuns.HeldIsLatest | src/microservice-essentials/performance/caching-request-hook.cpp:109-222 | over every run and either cache, a usable element is the latest stored result of its key, insertion time included |
| CachingRuns.ServedIffLatestIsFresh | src/microservice-essentials/performance/caching-request-hook.cpp:115-119 | a request is answered from the map iff the age of the latest stored result is at most max_age, and then with it |
| CachingRuns.ServedIffListedAndFresh | src/microservice-essentials/performance/caching-request-hook.cpp:109-222 | from an LRU cache: iff the key is listed and the age of its latest stored result is at most max_age, and then with that result |
| CircuitBreaker.MaxPendingRequestsStrategy.GetStatus | src/microservice-essentials/reliability/circuit-breaker-request-hook.cpp:26-36 | OPEN iff the name's counter exceeds the maximum |
| CircuitBreaker.MaxPendingRequestsStrategy.PreProcess | src/microservice-essentials/reliability/circuit-breaker-request-hook.cpp:38-49 | one 32-bit increment of the name's counter |
| CircuitBreaker.MaxPendingRequestsStrategy.PostProcess | src/microservice-essentials/reliability/circuit-breaker-request-hook.cpp:51-61 | one 32-bit decrement of the name's counter |
| CircuitBreaker.CircuitBreakerRequestHook.PreProcess | src/microservice-essentials/reliability/circuit-breaker-request-hook.cpp:73-88 | takes the steps of the transition system; without interference an admitted request stays counted and a refused one does not |
| CircuitBreaker.StepMeans | src/microservice-essentials/reliability/circuit-breaker-request-hook.cpp:73-94 | each step of the transition system: the counter it changes and what becomes of the request; the last decrement is left out iff the function returned the reserved code |
| UInt32.WrapAround | src/microservice-essentials/reliability/circuit-breaker-request-hook.cpp:43-56 | increment and decrement agree with arithmetic modulo 2^32 |
| CircuitBreaker.CounterIsNetSum | src/microservice-essentials/reliability/circuit-breaker-request-hook.cpp:38-94 | in every reachable state of every interleaving and configuration, whatever the functions return, a counter is the number of its requests in flight, plus the counts lost, minus the double decrements, modulo 2^32 |
| CircuitBreaker.CounterIsInFlightAndLost | src/microservice-essentials/reliability/circuit-breaker-request-hook.cpp:73-94 | if the error status is not OK or the maximum is the largest 32-bit number, nothing is decremented twice: in flight plus lost |
| CircuitBreaker.CountsRightlyIff | src/microservice-essentials/reliability/circuit-breaker-request-hook.cpp:73-94 | a run's counter is the number of requests in flight iff losses and double decrements cancel out |
| CircuitBreaker.ConservesIff | src/microservice-essentials/reliability/circuit-breaker-request-hook.cpp:73-94 | over all runs, reserved codes included: lost counts are the only cause of a wrong counter iff the error status is not OK or the maximum is the largest 32-bit number |
| CircuitBreaker.ReservedCodesAreNotCountedDown | src/microservice-essentials/request/request-hook.cpp:54-60 | runs in which any number of counts up to the maximum is lost, one request at a time: all over, counter not back at 0 |
| CircuitBreaker.OtherNamesUntouched | src/microservice-essentials/reliability/circuit-breaker-request-hook.cpp:38-61 | a step affects no other name's counter or status |
| CircuitBreaker.RefusedIff | src/microservice-essentials/reliability/circuit-breaker-request-hook.cpp:26-36 | in every state of every run, a request is refused iff the net count of its name exceeds the maximum modulo 2^32 |
| CircuitBreaker.RefusedIffTooManyInFlight | src/microservice-essentials/reliability/circuit-breaker-request-hook.cpp:26-36 | if nothing is decremented twice and 32 bits suffice: iff more than the maximum, itself included, are in flight or lost |
| CircuitBreaker.QuiescentIsClosedIff | src/microservice-essentials/reliability/circuit-breaker-request-hook.cpp:38-94 | when all requests are over, in any configuration, the counter holds the lost counts minus the double decrements, and the status is CLOSED iff that does not exceed the maximum |
| CircuitBreaker.GuardedQuiescentIsClosedIff | src/microservice-essentials/reliability/circuit-breaker-request-hook.cpp:38-94 | if nothing is decremented twice, only the lost counts |
| CircuitBreaker.AllCanBeRefused | src/microservice-essentials/reliability/circuit-breaker-request-hook.cpp:73-88 | requests arriving together can all be refused while none runs |
| BreakerLimits.ReliableCounter | src/microservice-essentials/reliability/circuit-breaker-request-hook.cpp:38-94 | within the limits a counter is exactly the number of requests in flight plus the counts lost |
| BreakerLimits.AtMostMaxRunning | src/microservice-essentials/reliability/circuit-breaker-request-hook.cpp:73-94 | within the limits, under every interleaving, running requests and lost counts of a name together never exceed the maximum |
| BreakerLimits.SafeIff | src/microservice-essentials/reliability/circuit-breaker-request-hook.cpp:73-94 | for any bound on the requests of a name in flight or lost: no more than the maximum ever run iff nothing is decremented twice and the bound is below 2^32, or it is at most the maximum |
| BreakerLimits.WrapAroundAdmitsAll | src/microservice-essentials/reliability/circuit-breaker-request-hook.cpp:38-49 | 2^32 requests of one name can all run at once |
| BreakerLimits.NoUnderflow | src/microservice-essentials/reliability/circuit-breaker-request-hook.cpp:51-61 | within the limits no decrement meets a counter of 0 |
| BreakerLimits.NoUnderflowIff | src/microservice-essentials/reliability/circuit-breaker-request-hook.cpp:51-61 | and only within them |
| BreakerLimits.RefusesForever | src/microservice-essentials/reliability/circuit-breaker-request-hook.cpp:26-36 | within the limits, once as many counts as the maximum are lost, every later request of the name is refused, however the run goes on |
| BreakerLimits.RefusesForeverIff | src/microservice-essentials/reliability/circuit-breaker-request-hook.cpp:26-36 | and only within them |
| Retry.GetDurationUntilNextRetry | src/microservice-essentials/reliability/retry-request-hook.cpp:14-89 | for any stack of jitter decorators: whether to retry is the innermost strategy's decision; without jitter the wait reaches the due time |
| Retry.StrategyMeans | src/microservice-essentials/reliability/retry-request-hook.cpp:39-89 | retry k is due after k intervals, or after the geometric sum of k intervals; a decorator keeps limit and due times of the strategy it decorates |
| Retry.AccumulatedDue | src/microservice-essentials/reliability/retry-request-hook.cpp:62-66 | the exponential strategy's loop computes the geometric sum |
| Retry.GeometricClosedForm | src/microservice-essentials/reliability/retry-request-hook.cpp:57-69 | (base - 1) * D_k = interval * (base^k - 1) |
| Retry.EndsIff | src/microservice-essentials/reliability/retry-request-hook.cpp:109-132 | a request ends after some number of attempts iff the limit is not the largest 32-bit number or some attempt must not be repeated |
| Retry.RunsForeverIff | src/microservice-essentials/reliability/retry-request-hook.cpp:109-132 | if every attempt is to be repeated, the request is still running after any number of them iff the limit is that number |
| Retry.RetryRequestHook.Process | src/microservice-essentials/reliability/retry-request-hook.cpp:101-107 | for every request that ends, whatever the limit: all calls but the last returned a code to be retried, the last one did not or threw or the retries were used up; the final outcome; the start times of all attempts as a timeline |
| Retry.Timeline.StartsWhenDue | src/microservice-essentials/reliability/retry-request-hook.cpp:101-132 | a retry starts when it is due, or at the end of the attempt before if that is later; with jitter the drawn time after that end |
| Retry.RetryRequestHook.CountRetry | src/microservice-essentials/reliability/retry-request-hook.cpp:117-119 | one 32-bit increment of the retry counter; a wait iff the retries are not used up, leading to the start of the next attempt |
| Retry.RetryRequestHook.PostProcess | src/microservice-essentials/reliability/retry-request-hook.cpp:109-132 | the same for the remaining attempts; the recursion terminates |
| Retry.CallsStopAtFirstFinalAttempt | src/microservice-essentials/reliability/retry-request-hook.cpp:109-132 | the calls stop exactly at the first attempt that threw, or returned the reserved code or one outside the retry codes, or when the retries are used up |
| Retry.ScheduleClosedForm | src/microservice-essentials/reliability/retry-request-hook.cpp:14-69 | attempt k starts at the maximum over j <= k of j's due time plus the time attempts j to k-1 take |
| Exceptions.HandledByFirstMatch | src/microservice-essentials/cross-cutting-concerns/exception-handling-request-hook.cpp:64-106 | the first matching mapper decides; without one the exception goes on |
| Exceptions.MapperTakesIff | src/microservice-essentials/cross-cutting-concerns/error-forwarding-request-hook.cpp:40-55 | which exceptions each kind of mapper takes, and the status it gives them |
| Exceptions.AnswerTells | src/microservice-essentials/cross-cutting-concerns/exception-handling-request-hook.cpp:72-102 | the text that reaches the caller: the details of the definition, the what() of a standard exception, or both |
| Exceptions.DefaultAnswers | src/microservice-essentials/cross-cutting-concerns/exception-handling-request-hook.cpp:28-40 | the status, details included, that the default mappers make of any exception |
| Exceptions.ForwardingParameters.IncludeAllErrorCodes | src/microservice-essentials/cross-cutting-concerns/error-forwarding-request-hook.cpp:6-20 | maps every error code and leaves OK and the reserved code alone |
| Exceptions.ForwardingParameters.Include | src/microservice-essentials/cross-cutting-concerns/error-forwarding-request-hook.cpp:22-27 | maps one code |
| Exceptions.ForwardingParameters.Exclude | src/microservice-essentials/cross-cutting-concerns/error-forwarding-request-hook.cpp:29-33 | unmaps one code |
| Pipeline.Execution.Process | src/microservice-essentials/request/request-hook.cpp:14-69 | pre, function, post, with all exception paths, for arbitrary hooks |
| Pipeline.HookRefuses | src/microservice-essentials/request/request-hook.cpp:14-24 | when pre_process throws or does not return OK, that is the end of the call |
| Pipeline.PostDecides | src/microservice-essentials/request/request-hook.cpp:26-69 | otherwise: which status post_process is given, and that what it returns or throws decides the outcome, except for the reserved code; after the reserved code from inside it is not called |
| Pipeline.Execution.ProcessHandling | src/microservice-essentials/cross-cutting-concerns/exception-handling-request-hook.cpp:56-108 | the mapper loop answers with the specification's outcome |
| Pipeline.HandlingDecides | src/microservice-essentials/cross-cutting-concerns/exception-handling-request-hook.cpp:56-108 | the outcome of a call inside an exception-handling hook: what was returned, the first match's answer, or the exception |
| Pipeline.RequestProcessor.Process | src/microservice-essentials/request/request-processor.cpp:37-50 | the loop nests the hooks, first one outermost, and runs the result in a new request context |
| Pipeline.RequestProcessor.constructor | src/microservice-essentials/request/request-processor.cpp:72-80 | the global hooks are registered first, in order |
| Pipeline.RequestProcessor.With | src/microservice-essentials/request/request-processor.cpp:13-18 | appends a hook |
| Pipeline.RequestProcessor.BeginWith | src/microservice-essentials/request/request-processor.cpp:25-30 | prepends a hook |
| Pipeline.StackOrder | src/microservice-essentials/request/request-processor.cpp:13-35 | however registrations are mixed: reversed BeginWith hooks, then globals, then With hooks |
| Pipeline.TraceOfStack | src/microservice-essentials/request/request-hook.cpp:14-69 | the exact sequence of pre, function and post calls of any stack of hooks, whatever they return or throw |
| Pipeline.StackIsTwoPhase | src/microservice-essentials/request/request-hook.cpp:14-69 | outcome and world of nested calls, for stacks that mix all kinds of hooks: enter hooks while pre_process returns OK, then unwind the entered ones, innermost first, exception handling included |
| Pipeline.BracketedIff | src/microservice-essentials/request/request-hook.cpp:14-69 | each entered hook gets one post call, in reverse order, unless the function inside a hook returns the reserved code |
| Pipeline.BodyRunsIff | src/microservice-essentials/request/request-hook.cpp:18-30 | the function runs iff every pre_process returns OK |
| Pipeline.ExceptionCrosses | src/microservice-essentials/request/request-hook.cpp:27-52 | an exception crosses any stack of hooks that keep the exception marker, unchanged |
| Pipeline.FirstMapperDecides | src/microservice-essentials/cross-cutting-concerns/exception-handling-request-hook.cpp:56-108 | and ends at the exception-handling hook as its first matching mapper says |
| Pipeline.DefaultHandlingIsTotal | src/microservice-essentials/cross-cutting-concerns/exception-handling-request-hook.cpp:28-40 | the default hook lets no exception out |
| Pipeline.CalleeStatusIsForwarded | src/microservice-essentials/cross-cutting-concerns/error-forwarding-request-hook.cpp:40-85 | a mapped callee status comes out of the incoming request as exactly the mapped status; others go back unchanged |
| Pipeline.IssuedOutcome | src/microservice-essentials/cross-cutting-concerns/error-forwarding-request-hook.cpp:71-85 | the exception for a mapped code, with its text, or the status unchanged |
| Pipeline.CalleeExceptionPassesIff | src/microservice-essentials/cross-cutting-concerns/error-forwarding-request-hook.cpp:71-85 | a callee's exception passes the forwarding hook unchanged iff the reserved code is not mapped |
| ParentGraph.RunsStayAcyclic | src/microservice-essentials/context.cpp:50-109 | every sequence of constructions, copies, moves and assignments, throwing or not, keeps the parents acyclic and the global context parentless |
| ParentGraph.RankAfter | src/microservice-essentials/context.cpp:218-235 | an assignment creates no cycle |
| ParentGraph.RunsAreDeterministic | src/microservice-essentials/context.cpp:50-109 | the graph a run leads to depends on its operations alone, not on the ranks that witness acyclicity |
| ParentGraph.OnlyGlobalStaysParentlessIff | src/microservice-essentials/context.cpp:111-115 | all other contexts keep a parent iff the global one is not copied into them |
| ParentGraph.HandlerThrowsIff | src/microservice-essentials/request/request-processor.cpp:58-64 | a handler's Process throws iff the thread's context is a proper ancestor of its context's parent |
| ParentGraph.HandlerBelowThreadThrows | src/microservice-essentials/request/request-processor.cpp:58-64 | that state is reachable by constructing one context below the thread's |
| Contexts.Context.constructor | src/microservice-essentials/context.cpp:50-60 | a new context below its parent |
| Contexts.Context.Copy | src/microservice-essentials/context.cpp:73-81 | a copy has the metadata and the parent of the original |
| Contexts.Context.Assign | src/microservice-essentials/context.cpp:87-97 | metadata is copied even when the assignment throws; it throws iff the context is a proper ancestor of the other's parent; otherwise it takes over the other's parent, unless it is that parent or the global context |
| Contexts.Context.MoveAssign | src/microservice-essentials/context.cpp:99-109 | the same for moves |
| Contexts.Context.InitParent | src/microservice-essentials/context.cpp:218-235 | the new parent, or the exception, in every case |
| ParentGraph.AssignedAncestors | src/microservice-essentials/context.cpp:226-233 | after an assignment that takes over the parent the ancestors are the other context's |
| Contexts.ChainIsHeldBy | src/microservice-essentials/context.cpp:168-216 | the chain that a lookup follows holds the metadata of the context and its ancestors, in that order |
| Contexts.AssignedLooksUpTheSame | src/microservice-essentials/context.cpp:87-97 | so every key is looked up as in the other context |
| Contexts.Context.GetAllParents | src/microservice-essentials/context.cpp:207-216 | exactly the ancestors; terminates |
| Contexts.Context.At | src/microservice-essentials/context.cpp:168-179 | the value in the nearest context that has the key; terminates |
| Contexts.Context.AtOr | src/microservice-essentials/context.cpp:181-192 | the same, or the default |
| Contexts.Context.Contains | src/microservice-essentials/context.cpp:194-205 | whether the key occurs in the flattened metadata |
| Contexts.Context.GetAllMetadata | src/microservice-essentials/context.cpp:134-142 | the flattened metadata of the chain |
| Contexts.Context.GetFilteredMetadata | src/microservice-essentials/context.cpp:144-156 | one entry per request for a present key, with the value At returns |
| Contexts.Context.Insert | src/microservice-essentials/context.cpp:158-161 | adds one value behind those the key has, and changes no other key |
| Contexts.Context.Erase | src/microservice-essentials/context.cpp:129-132 | drops and counts all values of a key, and no others |
| Contexts.Context.Clear | src/microservice-essentials/context.cpp:124-127 | drops all metadata of the context itself |
| Metadata.LookupAgreesWithFlattening | src/microservice-essentials/context.cpp:134-205 | lookup along the chain is lookup in the flattened metadata |
| Metadata.NearestDecides | src/microservice-essentials/context.cpp:168-205 | the nearest context that has the key decides |
| Metadata.FlattenIsSum | src/microservice-essentials/context.cpp:134-142 | flattening is the multiset sum of the chain |
| Metadata.FilteredValues | src/microservice-essentials/context.cpp:144-156 | filtering yields one entry per request for a present key, with the value that is found |
| Words.ContainsWord | src/microservice-essentials/security/claim-checker-request-hook.cpp:27-38 | the stream loop finds the value iff it is one of the tokens |
| Words.SplitFindsRuns | src/microservice-essentials/security/claim-checker-request-hook.cpp:28-31 | the tokens are the longest stretches without any of the six white-space characters |
| Words.SplitOfJoin | src/microservice-essentials/security/basic-token-auth-request-hook.cpp:17-29 | splitting a joined list finds what splitting its parts finds |
| Words.SplitUndoesJoin | src/microservice-essentials/security/basic-token-auth-request-hook.cpp:17-29 | splitting undoes joining for single words |
| ClaimPipeline.TokenAuthRequestHook.PreProcess | src/microservice-essentials/security/token-auth-request-hook.cpp:12-54 | the context's metadata and the status on every path |
| ClaimPipeline.AuthenticationTells | src/microservice-essentials/security/token-auth-request-hook.cpp:12-54 | the status of every path, with its text |
| ClaimPipeline.ClaimCheckerRequestHook.PreProcess | src/microservice-essentials/security/claim-checker-request-hook.cpp:47-61 | OK iff the claim is found and the value is one of its tokens, otherwise the fail status |
| ClaimPipeline.BasicTokenAuthRequestHook.constructor | src/microservice-essentials/security/basic-token-auth-request-hook.cpp:43-51 | the loop registers every token with its last list of scopes |
| ClaimPipeline.LastEntryDecides | src/microservice-essentials/security/basic-token-auth-request-hook.cpp:43-51 | of several entries of a token the last one counts |
| ClaimPipeline.BasicTokenAuthRequestHook.DecodeToken | src/microservice-essentials/security/basic-token-auth-request-hook.cpp:53-66 | the token with its joined scopes |
| ClaimPipeline.BasicTokenAuthRequestHook.VerifyToken | src/microservice-essentials/security/basic-token-auth-request-hook.cpp:68-81 | accepts exactly the registered tokens |
| ClaimPipeline.BasicTokenAuthRequestHook.ExtractClaim | src/microservice-essentials/security/basic-token-auth-request-hook.cpp:83-94 | knows the scope claim only |
| ClaimPipeline.ClaimsComeFromToken | src/microservice-essentials/security/token-auth-request-hook.cpp:12-54 | after success every required claim is what the presented token says, whatever was inherited; other keys are untouched |
| ClaimPipeline.InheritedClaimShowsIff | src/microservice-essentials/security/token-auth-request-hook.cpp:12-54 | what looking up a required claim yields afterwards, on every path: the inherited value iff it is the first claim that an accepted token lacks, otherwise the token's value or the empty one |
| ClaimPipeline.MissingClaimShows | src/microservice-essentials/security/token-auth-request-hook.cpp:41-51 | for any token hook and claims: if an accepted token lacks a claim, authentication fails and the first such claim reads as inherited |
| ClaimPipeline.InheritedTenantShows | src/microservice-essentials/security/token-auth-request-hook.cpp:41-51 | a hook and a context for which that happens |
| ClaimPipeline.FunctionRunsIff | src/microservice-essentials/security/claim-checker-request-hook.cpp:21-61 | for any metadata, token table, fail status and parents: the function runs iff the presented token is registered and its last scopes contain the required word, or the fail status is OK |
| ClaimPipeline.RefusedCallerGets | src/microservice-essentials/security/token-auth-request-hook.cpp:22-39 | what the caller gets otherwise: no token, an unregistered token, or a token without the required word |
| ClaimPipeline.FunctionRunsIffScopeGranted | src/microservice-essentials/security/claim-checker-request-hook.cpp:21-61 | with scopes that are single words: iff the required scope is among them |
| ClaimPipeline.RequestIsAuthorizedIff | src/microservice-essentials/request/request-processor.cpp:48-49 | the same from inside a request processor: the token is looked up from the processor's own context on |
| Urls.HostPartMatches | src/microservice-essentials/utilities/url.cpp:60-64 | every text of the form host, port, path, query, fragment parses to those parts |
| Urls.HostPartIsSound | src/microservice-essentials/utilities/url.cpp:60-64 | and only such texts parse |
| Urls.ToUrlFollows | src/microservice-essentials/utilities/url.cpp:57-79 | the scheme ends at the last place where the rest can still match |
| Urls.AcceptedIff | src/microservice-essentials/utilities/url.cpp:57-68 | which texts the parser accepts |
| Urls.RoundTripIff | src/microservice-essentials/utilities/url.cpp:7-79 | parsing a printed URL returns it iff its parts have the right characters and no later "://" or "@" is followed by text of the remaining form |
| Urls.PrintedForm | src/microservice-essentials/utilities/url.cpp:7-46 | the printed text: every part with its delimiter, and no delimiter for an empty part |
| Urls.WellFormedIff | src/microservice-essentials/utilities/url.cpp:60-61 | the right characters, written out for each part |
| Urls.PlainRoundTrip | src/microservice-essentials/utilities/url.cpp:7-79 | it does when "@" and "://" occur only as delimiters; the characters of the parts written out |
| Urls.AtInPathIsMisread | src/microservice-essentials/utilities/url.cpp:60-61 | text with "@" in the path is taken apart at that "@" |
| Urls.AtInPathIsPrinted | src/microservice-essentials/utilities/url.cpp:25-46 | the URL it is the printed form of |
| UrlNormalForm.PrintingNormalises | src/microservice-essentials/utilities/url.cpp:7-79 | for every accepted text, printing what was parsed and parsing that returns the same URL |

## Left out

- Real clocks, sleeping, random number generation and mutexes: parameters, a clock field and atomic steps take their place.
- `std::any`, hook factories and automatic registration of parameter classes: hooks are given directly.
- Builder methods of the caching parameters, status string parsing and the HTTP and gRPC converters: finite tables and
  setters.
- Logging, log formatting and `LoggingRequestHook`, which formats the reserved code and would throw in the exception path.
- `Url::GetPort`: a conversion of the port text by the standard library.
- Destruction of contexts: parents are assumed to outlive their children. Thread-local storage is one context per thread.
- The `initializer_list` overloads of `Context`, which repeat the single-entry ones.
- Graceful shutdown, signals, environment variables and metadata conversion: operating system calls and thin loops.
- Rounding of floating point durations: strategies are modelled over real numbers.
- BreakerLimits.AtMostMaxRunning: states the guarantee within the limits of `BreakerLimits.Reliable`; beyond them it is
  false, by `BreakerLimits.SafeIff`.
- BreakerLimits.NoUnderflow: the same, by `BreakerLimits.NoUnderflowIff`.
- BreakerLimits.RefusesForever: the same, by `BreakerLimits.RefusesForeverIff`.
- Retry.RetryRequestHook.Process: requires a request that ends; which ones do is stated by `Retry.EndsIff`.
- Retry.RetryRequestHook.PostProcess: the same.
- Pipeline.RequestProcessor.Process: what entering the request context does to the world is a parameter; for metadata
  chains it is `ClaimPipeline.Below`.
- Contexts.Context.constructor: the throw for a context constructed as its own parent; a constructor here cannot receive
  the object it is about to make.
- CircuitBreaker.CircuitBreakerRequestHook.PreProcess: states the result without interference; the interleaved steps are
  in the transition system.
