# Knoway: a verified model of the gateway's stateful core

Knoway is a gateway in front of large language models.  This project models the parts of it whose
behaviour depends on history, arithmetic or interleaving, and proves what they do for every input,
every run or every reachable state:

| files | part of the gateway | main results |
|---|---|---|
| `TokenBucket`, `LimiterRuns`, `LimiterKeys`, `LimiterExpiry`, `LimiterBounds`, `LimiterAnswers`, `LimiterOverflow`, `LocalLimiter` | the local rate limiter: fixed-point buckets, 64 shards, expiry, cleanup, eviction | the sharded, in-place limiter refines a table that never drops a bucket, for a key exactly when its rate is not truncated to zero; exactly which checks are denied, from clock readings and answers alone; admission bounds over any stretch of a run, with eviction and changing limits; the exact conditions for the cap on a shard and for staying within 64 bits |
| `RedisBucket`, `RedisAnswers` | the Lua rate-limit script | expiry does not show, and the admission bound holds over any stretch with changing limits, exactly for positive windows; exactly which calls are denied |
| `RatePolicy` | policy choice and bucket keys | one limit per bucket, exactly when no identity extends another by a colon |
| `RoundRobin`, `LeastRequest` | the two weighted load balancers | exact proportionality over all runs of draws; quota bounds over all runs |
| `ServerSentEvents`, `ChatStream`, `StreamPump`, `LastLine`, `GatewayChain` | SSE printing, reading and pumping of completion streams | printing is inverted by the HTML standard's reader, exactly when no data holds a carriage return; what the pump writes, records and keeps, in closed form; gateway-to-gateway round trip |
| `RouteTable`, `Reconcilers`, `Fallback` | route table, cluster register, backend reconcilers, retry loop | the merged list refines a map lookup; two tables in lockstep over all interleavings, exactly when no name is shared; what a deleted backend leaves behind; attempts and sleeps of the retry loop |
| `RequestRewrite` | JSON body rewriting | precedence of the four rewrites for any map order; what becomes of a request after any number of attempts: what the last one sends if it gets to send anything, when an attempt is refused, and when the handler panics |
| `Bootkit` | start-up and shutdown | what an answer says about the tasks, over every interleaving of tasks and caller; when a task can be left behind; when `Stop` can act |

Code that the program runs by updating fields is a class whose methods are proved against a function
on values (`View()` gives the value); the results over whole runs are lemmas about those functions.

## How the model reads the program

- Time is an integer number of nanoseconds (milliseconds for Redis).  A check reads its clock under
  the shard lock, so check times never decrease; a cleanup reads its clock before it takes the lock,
  so its time may lie before that of an earlier check.  Each critical section is one step.
- Rate-limit windows are whole seconds (whole milliseconds for Redis), positive or negative, which
  makes the local limiter's float quotient for the rate an integer division.  Integers are unbounded
  except where the overflow results say otherwise.
- A map iteration is an arbitrary order: methods pick an arbitrary remaining key, and their
  postconditions hold whatever is picked.
- Random draws, clocks, the hash of a key, the JSON and JSON-patch libraries and the outcomes of
  network and Kubernetes calls are parameters.

Where the code does something else than its names or documentation suggest, the model follows the
code, and the consequence is proved:

- A bucket re-created after expiry is not tracked in `lastAccessTime`, and eviction only considers
  keys seen strictly before now; so the cap on a shard can be exceeded, by re-created buckets
  (`RecreatedExceedCap`) as well as by a burst (`BurstExceedsCap`).  `StepKeepsCap` and `CapHolds` say
  exactly when a step and a run keep it.
- A limit whose rate is truncated to zero, or whose window is negative, is refilled by expiry alone
  (`ExpiryShows`); exactly then expiry shows and the admission bound fails (`ExpiryInvisibleIff`,
  `AdmissionBoundIff`).  With a negative window the product of seconds and rate can leave 64 bits
  (`RefillFitsIff` gives the exact limit).
- With Redis a negative window has the same effects (`RedisBucket.ExpiryShows`, `ExpiryInvisibleIff`,
  `AdmissionBoundIff`), and every change of the limit hands out a full bucket: two identities that share
  a bucket and alternate two positive limits are never denied (`AlternatingNeverDenied`).
- `Desc` computes `And(-1)`, which changes no counter, so the least-request counters count selections
  (`AndMinusOne`, `RequestCounter.Desc`, `Quota`).
- A matcher with a prefix also accepts an empty identity, because its exact getter reads as empty
  (`PrefixAccepts`); `EmptyIdentityCharged` says which requests share the bucket of the empty identity.
- Identities may contain colons, and then two of them can share a bucket (`CollisionHasTwoLimits`,
  `OneLimitPerKey`).
- The last line of a stream is dropped if it has no line feed (`TailIsDropped`), even `[DONE]`, and the
  end of the input writes an event holding `null` (`UnterminatedDone`); `LostLastLine` says exactly
  when that changes the output.
- A payload that begins with `{"error":` stops a second gateway (`ChainTransparent`).
- The pre-delay of a fallback is only slept when `MaxRetries` is set (`Fallback.Sleeps`).
- A cluster that removes "model" makes the next attempt of the same request fail
  (`NextAttemptRefused`); the failed patch leaves the request with neither buffer nor parsed body, and
  the attempt after that dereferences the missing buffer.  `AttemptsEnd` says exactly which clusters
  lead there, and `FallbackPanics` which value of `MaxRetries` is enough.
- The gate that looks for unfinished delete steps searches for a condition named with `delete-`, but
  the steps report `deleteRegister`; and a step that fails ends the pass before the gate is reached.  So
  it never blocks: the exact condition for clearing the finalizer, in `BackendReconciler.Reconcile`, does
  not depend on it.
- The name check of a backend only looks at backends of its own kind, so an LLM and an image backend
  may share a name; reconciled together they can leave a route without a cluster
  (`SharedNameBreaks`, `LockstepIff`).
- A backend whose model name was changed after its registration keeps the old name in both tables when
  it is deleted (`LeftBehind`, `CleanDeletion`).
- A task that fails after its caller has returned waits for ever (`LateErrorsLeak`); `LeakReachable`
  says when that can happen and `FinishesIff` when the wait group can still finish.
- `Stop` waits for the mutex that `Start` holds to its end, so it cannot interrupt a `Start`
  (`StopWaitsForStart`), and it runs the stop hooks once more (`HooksStoppedAgain`).

## Model

| member | source | states |
|---|---|---|
| TokenBucket.TwoWindowsFill | pkg/filters/ratelimit/local.go:36-50 | two windows at the truncated rate bring more than the capacity, for every limit with limit * 1000 >= window |
| TokenBucket.ConsumeKeepsSound | pkg/filters/ratelimit/local.go:123-143 | a consumption from a fresh or touched bucket keeps 0 <= tokens <= capacity, the quota's capacity and rate, and a refill clock less than a second behind the last check |
| TokenBucket.RefillFits | pkg/filters/ratelimit/local.go:123-133 | a refill of an unexpired bucket with any int32 limit and positive window adds at most 300 capacities, and the sum (at most 301) fits a signed 64-bit integer |
| LimiterRuns.StepKeepsSound | pkg/filters/ratelimit/local.go:36-104 | a check or a cleanup keeps every bucket of the shard sound for its key's quota |
| LimiterRuns.RunInvariant | pkg/filters/ratelimit/local.go:36-184 | after every run from an empty shard, tracked keys have buckets and every bucket is sound |
| LimiterRuns.RefillNeverOverflows | pkg/filters/ratelimit/local.go:46-50 | after every run, for a positive window, the refill of the next check stays within 301 capacities and within int64 |
| LimiterOverflow.RefillFitsIff | pkg/filters/ratelimit/local.go:123-133 | for an int32 limit, every refill of every legal run on a 64-bit nanosecond clock fits int64 if and only if the window is positive, or limit * 1000 < (10^9 + 1) * -window |
| LimiterRuns.StepKeepsCap | pkg/filters/ratelimit/local.go:62-81 | a step keeps the shard within its cap if and only if an insertion at the cap finds a tracked key seen strictly earlier (or holds the key "" that eviction falls back to) |
| LimiterRuns.CapHolds | pkg/filters/ratelimit/local.go:62-121 | a shard stays within its cap at every point of a legal run if and only if every insertion of the run that meets a full shard finds a victim |
| LimiterRuns.BurstExceedsCap | pkg/filters/ratelimit/local.go:106-121 | for every n a legal run of n checks at one clock reading leaves n buckets |
| LimiterRuns.RecreatedExceedCap | pkg/filters/ratelimit/local.go:83-121 | a legal run fills a shard, re-creates its expired buckets and then inserts a strictly later key beyond the cap, whatever the quotas |
| LimiterKeys.FullAgain | pkg/filters/ratelimit/local.go:83-91 | a kept bucket past its expiry answers and ends like a fresh one |
| LimiterKeys.SameAnswer | pkg/filters/ratelimit/local.go:36-60 | one check of the shard and of the bucket that was kept give the same answer and equivalent buckets |
| LimiterKeys.KeyRun | pkg/filters/ratelimit/local.go:27-184 | over every run of the shard, with expiry, cleanup and eviction, a key gets the answers of one bucket fed with its own checks and dropped on eviction alone |
| LimiterExpiry.ServedAlone | pkg/filters/ratelimit/local.go:123-143 | in the limiter that never drops a bucket, what a key gets depends only on its own checks |
| LimiterExpiry.KeyRefinesIdeal | pkg/filters/ratelimit/local.go:36-184 | over every run of checks and cleanups without eviction, a key whose quota refills within a window gets the answers of a limiter that never drops a bucket, whatever the other keys' quotas |
| LimiterExpiry.ExpiryShows | pkg/filters/ratelimit/local.go:83-91 | for any other quota a concrete run gets a different last answer |
| LimiterExpiry.ExpiryInvisibleIff | pkg/filters/ratelimit/local.go:36-104 | for any quotas, expiry is invisible to a key over all runs without eviction if and only if its limit <= 0, or its window is positive and limit * 1000 >= window |
| LimiterExpiry.LimiterInvisibleIff | pkg/filters/ratelimit/local.go:36-184 | all answers of the limiter are those of the ideal one, over all such runs, if and only if every key's quota is such |
| LimiterBounds.Ledger | pkg/filters/ratelimit/local.go:123-143 | over any run of the shard with changing limits up to a largest one: 1000 * admitted + tokens left <= tokens before + evictions * capacity + rate * whole seconds, with 0 <= tokens <= capacity |
| LimiterBounds.StretchBound | pkg/filters/ratelimit/local.go:123-143 | from any state of a key's bucket, a stretch admits at most ((1 + evictions) * capacity + rate * (whole seconds + 1)) / 1000 |
| LimiterBounds.LifetimeBound | pkg/filters/ratelimit/local.go:36-184 | since a key had no bucket: 1000 * admitted + tokens <= (1 + evictions) * capacity + rate * whole seconds, with 0 <= tokens <= capacity |
| LimiterBounds.AdmissionBound | pkg/filters/ratelimit/local.go:36-184 | in any stretch of any run of the shard, with expiry, cleanup and eviction at work and limits that may change from check to check (each with limit * 1000 >= window), a key gets at most ((1 + its evictions) * capacity + rate * (whole seconds + 1)) / 1000 through, for the largest limit; only its own quotas matter |
| LimiterBounds.AdmissionBoundIff | pkg/filters/ratelimit/local.go:36-143 | for a key with a positive limit, among any quotas, the bound holds over every stretch of every legal run if and only if its window is positive and limit * 1000 >= window |
| LimiterAnswers.DeniedIff | pkg/filters/ratelimit/local.go:36-184 | over every run of the shard in which a key is not evicted, with expiry and cleanup at work and for a quota that refills within a window, a check is denied if and only if some stretch of the key's checks that ends with it has 1000 * (admitted in it + 1) > limit * 1000 + limit * 1000 / window * (the whole seconds counted between its readings) |
| LimiterAnswers.NeverAdmitted | pkg/filters/ratelimit/local.go:123-143 | a limit that is not positive and reaches a bucket denies every check of every run |
| LimiterAnswers.KeptIff | pkg/filters/ratelimit/local.go:163-184 | after any run in which a key is not evicted it has a bucket if and only if some check of it was followed by no cleanup more than five minutes, or two windows if that is longer, after the check |
| LimiterAnswers.AccessIsLast | pkg/filters/ratelimit/local.go:36-121 | after every run, an access time that is kept is that of the key's last check |
| LimiterAnswers.EvictsLeastRecent | pkg/filters/ratelimit/local.go:106-121 | an eviction takes a key whose last check is the earliest among the tracked keys |
| LocalLimiter.AtomicBucket.TryConsume | pkg/filters/ratelimit/local.go:123-143 | the in-place update is the value-level consumption |
| LocalLimiter.Shard.EvictOldestBucket | pkg/filters/ratelimit/local.go:106-121 | in whatever order the map is visited, the dropped key has the least access time of those seen strictly before now, or is "" when there is none |
| LocalLimiter.Shard.InitBucket | pkg/filters/ratelimit/local.go:62-81 | makes room if the shard is full and inserts a full bucket; all other buckets stay |
| LocalLimiter.Shard.UpdateBucket | pkg/filters/ratelimit/local.go:83-104 | replaces an expired bucket and drops its access time, or adopts a changed limit and renews the time to live |
| LocalLimiter.Shard.Acquire | pkg/filters/ratelimit/local.go:36-56 | the bucket to consume from is found, renewed or created as the value-level step says, with a legal victim |
| LocalLimiter.Shard.CheckBucketLocal | pkg/filters/ratelimit/local.go:36-60 | a check refines the step that the run results speak about, and no two keys share a bucket object |
| LocalLimiter.Shard.Cleanup | pkg/filters/ratelimit/local.go:163-184 | exactly the expired keys leave both maps, in any order of the visit |
| LocalLimiter.RateLimiter.CheckBucket | pkg/filters/ratelimit/rate_limit.go:285-299 | a zero limit changes nothing; otherwise the key's own shard steps with the given window, or 60 seconds for a zero one, no other shard changes, and every key stays in the shard its hash names |
| LocalLimiter.RateLimiter.Cleanup | pkg/filters/ratelimit/local.go:163-184 | every shard loses exactly its expired keys, and keys stay in their shards |
| RedisBucket.Server.Eval | pkg/filters/ratelimit/redis.go:11-74 | the script's answer and the stored hash are those of the step that the run results speak about; no other hash changes |
| RedisBucket.ScriptKeepsSound | pkg/filters/ratelimit/redis.go:36-71 | a script run leaves tokens of at most the capacity, not negative for a positive window, and a deadline five minutes, or two windows if that is longer, after the update |
| RedisBucket.FullAgain | pkg/filters/ratelimit/redis.go:53-71 | for a positive window, a bucket at its deadline behaves like a missing one |
| RedisBucket.ExpiryInvisible | pkg/filters/ratelimit/redis.go:36-71 | over every run of script calls with changing limits and of expirations the answers are those of a server that expires nothing, if the window is positive or no limit grants anything |
| RedisBucket.ExpiryShows | pkg/filters/ratelimit/redis.go:32-71 | with a negative window and a positive limit a concrete run gets another last answer |
| RedisBucket.ExpiryInvisibleIff | pkg/filters/ratelimit/redis.go:32-71 | for any set of limits in use, expiry is invisible over all runs if and only if the window is positive or no limit grants anything |
| RedisBucket.Ledger | pkg/filters/ratelimit/redis.go:36-62 | what is admitted is covered by the tokens held, one capacity for each change of the limit, and the time that passes, with expirations at work |
| RedisBucket.StretchBound | pkg/filters/ratelimit/redis.go:36-62 | from any state of the hash, a stretch of T ms admits at most ((1 + changes) * capacity + T * capacity / window) / 1000 |
| RedisBucket.AdmissionBound | pkg/filters/ratelimit/redis.go:32-71 | any stretch of T ms of a run, with a positive window and limits up to a largest one, admits at most ((1 + changes of the limit) * capacity + T * capacity / window) / 1000 |
| RedisBucket.AdmissionBoundIff | pkg/filters/ratelimit/redis.go:32-71 | for limits up to a positive one the bound holds in every stretch of every run if and only if the window is positive |
| RedisBucket.AlternatingNeverDenied | pkg/filters/ratelimit/redis.go:47-50 | calls whose positive limits differ from one to the next are never denied |
| RedisAnswers.DeniedIff | pkg/filters/ratelimit/redis.go:32-71 | over every run with one positive limit and a positive window, with expirations at work, a call is denied if and only if some stretch of the calls that ends with it has (admitted in it + 1) * window > limit * (window + its length) |
| RatePolicy.FirstMatch | pkg/filters/ratelimit/rate_limit.go:159-196 | the found policy applies, no earlier one does, and none is found only if none applies |
| RatePolicy.FindMatchingPolicy | pkg/filters/ratelimit/rate_limit.go:159-196 | the loop returns the first applicable policy |
| RatePolicy.RematchAgrees | pkg/filters/ratelimit/rate_limit.go:198-283 | the second match never rejects what the first chose: a request is charged exactly when it has an identity and its first applicable policy has a limit, and with that limit, that policy's window (60 seconds if it has none) and the key of its identity and model |
| RatePolicy.PolicyApplies | pkg/filters/ratelimit/rate_limit.go:159-196 | a policy applies by the identity of its kind, and a policy of another kind never does |
| RatePolicy.MatcherAccepts | pkg/filters/ratelimit/rate_limit.go:159-196 | no matcher accepts every identity, an exact one that identity only, an unset one or an empty prefix the empty identity only |
| RatePolicy.KeysEqual | pkg/filters/ratelimit/rate_limit.go:142-144 | two bucket keys are equal if and only if the kinds and "identity:model" are |
| RatePolicy.SamePolicy | pkg/filters/ratelimit/rate_limit.go:159-196 | the same kind and identity choose the same policy |
| RatePolicy.SeparatedHasOneLimit | pkg/filters/ratelimit/rate_limit.go:236-283 | with separated identities, calls for one bucket carry one limit and window |
| RatePolicy.CollisionHasTwoLimits | pkg/filters/ratelimit/rate_limit.go:142-144 | two identities, one extending the other by a colon, share a bucket with two limits |
| RatePolicy.OneLimitPerKey | pkg/filters/ratelimit/rate_limit.go:142-283 | for all policy lists every bucket sees one limit and window, if and only if no identity extends another by a colon and more |
| RatePolicy.ColonFreeSeparated | pkg/filters/ratelimit/rate_limit.go:142-144 | colon-free identities satisfy that condition |
| RatePolicy.QuotaOfEachKey | pkg/filters/ratelimit/rate_limit.go:198-299 | there is then one quota per key that all charged requests use, which is what the run results assume |
| RatePolicy.PrefixAccepts | pkg/filters/ratelimit/rate_limit.go:159-196 | a non-empty prefix accepts exactly the values that begin with it, and the empty one |
| RatePolicy.EmptyIdentityCharged | pkg/filters/ratelimit/rate_limit.go:159-283 | a request that lacks one kind of identity is charged to that kind's bucket of the empty identity, and to that limit, if and only if the first policy that takes it is of that kind and has a limit |
| RoundRobin.WeightedRoundRobin.Next | pkg/route/loadbalance/load_balance.go:80-125 | the wrap-around scan selects the server of the draw and stores the following index, always in range |
| RoundRobin.ScanInterval | pkg/route/loadbalance/load_balance.go:104-113 | the scan stops at a position exactly for the draws in that position's interval |
| RoundRobin.ScanMisses | pkg/route/loadbalance/load_balance.go:104-118 | the scan finds nothing exactly for draws not below the total weight |
| RoundRobin.PickInterval | pkg/route/loadbalance/load_balance.go:100-125 | from every start, a draw below the total finds a server, and finds server i exactly in its interval |
| RoundRobin.ExactlyProportional | pkg/route/loadbalance/load_balance.go:80-125 | from every start index exactly weight_i of the totalWeight draws select server i |
| RoundRobin.RunsProportional | pkg/route/loadbalance/load_balance.go:80-125 | over all sequences of n draws together, server i has exactly its weight's share of the selections, whatever the start index |
| LeastRequest.AndMinusOne | pkg/route/loadbalance/load_balance.go:156-160 | ANDing with -1 changes no counter |
| LeastRequest.RequestCounter.Desc | pkg/route/loadbalance/load_balance.go:156-160 | the counter keeps its value |
| LeastRequest.BestIsLeast | pkg/route/loadbalance/load_balance.go:162-192 | the selected server has the least count per weight |
| LeastRequest.BestIsFirst | pkg/route/loadbalance/load_balance.go:174-186 | ties go to the smaller count and then to the earlier server |
| LeastRequest.WeightedLeastRequest.Scan | pkg/route/loadbalance/load_balance.go:170-186 | the scan over ratios ends on the server that cross-multiplication selects |
| LeastRequest.WeightedLeastRequest.Next | pkg/route/loadbalance/load_balance.go:162-192 | selects that server and raises its count alone by one; with fewer than two servers no count changes |
| LeastRequest.WeightedLeastRequest.Done | pkg/route/loadbalance/load_balance.go:194-196 | no count changes |
| LeastRequest.SelectKeepsBalance | pkg/route/loadbalance/load_balance.go:162-192 | a selection keeps (c_i - 1) * w_j <= c_j * w_i for all pairs |
| LeastRequest.AfterBalanced | pkg/route/loadbalance/load_balance.go:162-196 | that holds after any run of selections and ends of requests |
| LeastRequest.AfterCounts | pkg/route/loadbalance/load_balance.go:140-196 | among two or more servers the counts add up to the number of selections, whatever ends of requests come in between |
| LeastRequest.Quota | pkg/route/loadbalance/load_balance.go:162-196 | after any run with N selections among n >= 2 servers of total weight W: (N - n + 1) * w_j <= c_j * W <= N * w_j + W - w_j |
| ServerSentEvents.MarshalTo | pkg/types/sse/event.go:35-81 | field by field and line by line, exactly the event's lines are appended |
| ServerSentEvents.LinesUnlines | pkg/types/sse/event.go:43-80 | lines without breaks, printed, are read back by the standard's line splitter |
| ServerSentEvents.DataReads | pkg/types/sse/event.go:50-59 | the data lines of any data put it back together, line feeds included |
| ServerSentEvents.EventReads | pkg/types/sse/event.go:43-80 | one printed event moves the standard's interpreter by exactly the event's meaning |
| ServerSentEvents.NeverSendsCR | pkg/types/sse/event.go:50-59 | no reader dispatches a carriage return |
| ServerSentEvents.PrintingInvertible | pkg/types/sse/event.go:35-81 | parsing printed events by section 9.2.6 of the HTML Living Standard gives the same data, names and identifiers in order, if and only if no data holds a carriage return |
| ServerSentEvents.RestReads | pkg/types/sse/event.go:35-81 | a reader also finds the events' comments in order, and the reconnection time that the last usable one sets |
| ChatStream.ChatCompletionStreamResponse.ReadBytes | pkg/types/openai/chat_completions_stream.go:278-288 | one line up to and including its line feed, or the rest with the reader's error |
| ChatStream.ChatCompletionStreamResponse.NextChunk | pkg/types/openai/chat_completions_stream.go:265-364 | the in-place state machine is the value-level step: state, chunk and error |
| ChatStream.ChatCompletionStreamResponse.BodyChunk | pkg/types/openai/chat_completions_stream.go:323-364 | the same for the body of a data line: done, usage, data or failure |
| StreamPump.PipeCompletionsStream | pkg/listener/common.go:117-173 | the pump ends for every input, with the end of the stream signalled; what it writes, the usage and model it records, and what the stream itself ends up with (usage, model, error text, flags) are determined by the complete lines |
| StreamPump.NextWrites | pkg/types/openai/chat_completions_stream.go:265-364 | each call takes off exactly what its chunk writes from what is left to write, and shortens the input |
| StreamPump.NextRecords | pkg/listener/common.go:136-172 | the same for the recorded usage and model |
| StreamPump.NextStores | pkg/types/openai/chat_completions_stream.go:265-364 | the same for the usage and model that the stream stores; a call that stops the pump has signalled the end |
| StreamPump.NextKeeps | pkg/types/openai/chat_completions_stream.go:289-333 | the same for the error text, the done flag and the error flag |
| StreamPump.OutputIs | pkg/listener/common.go:136-172 | one event per data line before the first error line, [DONE] or unparsable line, in order, then [DONE], nothing, or the final null event |
| StreamPump.UsageIs | pkg/listener/common.go:157-161 | the recorded usage is that of the last payload that mentions completion tokens and has one; the stream's own is what was read in the last payload that mentions them, even if that is none |
| StreamPump.ModelIs | pkg/listener/common.go:163-166 | the recorded model is that of the first payload |
| StreamPump.StreamModelIs | pkg/types/openai/chat_completions_stream.go:265-364 | the stream's own model is the first that is not empty |
| StreamPump.LeavesIs | pkg/types/openai/chat_completions_stream.go:289-333 | the error text is that of the lines without data, in order, up to and including an error line; the flags say which line stopped the pump |
| StreamPump.AfterError | pkg/types/openai/chat_completions_stream.go:278-300 | after an error line no data line is forwarded |
| StreamPump.DoneIsLast | pkg/listener/common.go:136-172 | at most one [DONE] is written, as the last event, and only for a [DONE] line |
| StreamPump.NothingAfterStop | pkg/listener/common.go:136-172 | lines after the one that stops the pump change nothing |
| StreamPump.UsageSettles | pkg/types/openai/chat_completions_stream.go:265-364 | once the end of the stream was signalled the usage never changes, over every continuation of the pump |
| LastLine.TailIsDropped | pkg/types/openai/chat_completions_stream.go:278-288 | text after the last line feed adds no line |
| LastLine.LostLastLine | pkg/types/openai/chat_completions_stream.go:278-288 | a missing final line feed changes what the pump writes if and only if no earlier line stops it and the last one carries data, says [DONE], or does not parse before an end of file |
| LastLine.UnterminatedDone | pkg/types/openai/chat_completions_stream.go:278-333 | [DONE] without a line feed is forwarded as null |
| GatewayChain.DeliveredIs | pkg/types/openai/chat_completions_stream.go:265-364 | repeated calls deliver exactly the payloads of the lines up to the one that stops them |
| GatewayChain.BodyReads | pkg/types/openai/chat_completions_stream.go:289-364 | what a data line means, with blanks around it: an error, [DONE], or a payload exactly if JSON accepts it and, where it mentions completion tokens, its usage can be read |
| GatewayChain.OtherReads | pkg/types/openai/chat_completions_stream.go:297-321 | every line that is not a data line is passed over |
| GatewayChain.RoundTrip | pkg/types/sse/event.go:35-81 | payloads printed and followed by [DONE] are read back as exactly those chunks in order, then the done chunk with EOF |
| GatewayChain.SecondPump | pkg/listener/common.go:117-173 | what a second pump writes for a printed stream |
| GatewayChain.ChainTransparent | pkg/listener/common.go:117-173 | a second gateway forwards the first one's output unchanged if and only if the first one's upstream lines run up to a [DONE] line and every payload before it, as rendered, reads back as data |
| RouteTable.Match | pkg/route/route/route.go:63-92 | true exactly when the route has targets and a non-empty exact match on the model |
| RouteTable.MatchesOneByOne | pkg/route/route/route.go:63-92 | a route with several matches matches what they match one by one |
| RouteTable.InitDirectModelRoute | pkg/route/manager/manager.go:27-48 | the route matches exactly its own model name |
| RouteTable.RouteManager.MergeRoutes | pkg/route/manager/manager.go:112-126 | in any map order, each key of the base registry overridden by the match registry is listed once |
| RouteTable.RouteManager.RegisterMatchRoute | pkg/route/manager/manager.go:50-65 | the match registry is updated on success only, and the list agrees again |
| RouteTable.RouteManager.RemoveMatchRoute | pkg/route/manager/manager.go:67-76 | the match route is gone, a hidden base route shows again |
| RouteTable.RouteManager.RegisterBaseRoute | pkg/route/manager/manager.go:78-99 | the list agrees with the registries also on the early return for a hidden route |
| RouteTable.RouteManager.RemoveBaseRoute | pkg/route/manager/manager.go:101-110 | the base route is gone, match routes stay |
| RouteTable.RouteManager.MatchRoute | pkg/route/manager/manager.go:128-139 | the first route of the list that matches |
| RouteTable.MatchIsLookup | pkg/route/manager/manager.go:50-139 | when each route is named by its only exact match, the answer is a lookup in the overridden table, none if that route has no targets |
| RouteTable.OrderIndependent | pkg/route/manager/manager.go:112-139 | the answer does not depend on the map order if and only if no two different routes match |
| Reconcilers.Register.DeleteCluster | pkg/clusters/manager/cluster.go:98-105 | both maps lose the name together |
| Reconcilers.Register.UpsertAndRegisterCluster | pkg/clusters/manager/cluster.go:116-133 | a cluster that cannot be built changes nothing; otherwise the cluster and its configuration are stored under the name |
| Reconcilers.BackendReconciler.RemoveBackend | internal/controller/llmbackend_controller.go:131-138 | both tables lose the name, unless it is empty, and nothing else |
| Reconcilers.BackendReconciler.RegisterBackend | internal/controller/llmbackend_controller.go:149-166 | cluster, configuration and route are stored where they could be built; it works exactly if both could |
| Reconcilers.BackendReconciler.ReconcileValidator | internal/controller/llmbackend_controller.go:174-212 | a backend with an explicit empty model name is refused |
| Reconcilers.ModelName | internal/controller/common.go:45-80 | the name is empty exactly for an explicit empty model name; `NamesMeet` says which backends share a name |
| Reconcilers.NamesMeet | internal/controller/common.go:45-80 | explicit names meet exactly if equal, left-out ones exactly for the same namespace and name, and a left-out name never meets an explicit one without a slash |
| Reconcilers.BackendReconciler.ReconcileRegister | internal/controller/llmbackend_controller.go:128-172 | whatever fails, lockstep is kept for a named backend; a deleted or failed one is in neither table, a registered one in both with its own cluster and route, and what is stored under other names is untouched |
| Reconcilers.BackendReconciler.ReconcileFinalDelete | internal/controller/llmbackend_controller.go:300-323 | the finalizer is cleared exactly when the update works and either the grace period is over or no condition with delete- in its name is not ready |
| Reconcilers.BackendReconciler.Reconcile | internal/controller/llmbackend_controller.go:66-126 | every pass keeps lockstep and what is stored under other names; it reaches the registration exactly with a valid, non-empty name; a pass that adds stores the cluster and a route to it under the resource's model name, or namespace/name if it has none; the registered names change as `Registered` says; a pass that clears the finalizer, under an exact condition, leaves the name in neither table |
| Reconcilers.BackendReconciler.Dispatch | pkg/clusters/manager/cluster.go:21-41 | in lockstep and without other routes, a request finds the cluster of its model exactly when that is registered |
| Reconcilers.LeftBehind | internal/controller/llmbackend_controller.go:66-172 | after any passes a name is registered if and only if some pass added it and none after that dropped it |
| Reconcilers.CleanDeletion | internal/controller/llmbackend_controller.go:128-138 | a deletion leaves nothing behind if and only if every name still registered is the backend's name at that time; other names stay |
| Reconcilers.LockstepInterleaved | internal/controller/imagegenerationbackend_controller.go:129-173 | over every interleaving of table operations of two reconcilers that stay on different names, a name nobody works on is in the register iff it has a base route |
| Reconcilers.SharedNameBreaks | internal/controller/imagegenerationbackend_controller.go:129-173 | two backends of one name can leave a route without a cluster |
| Reconcilers.LockstepIff | internal/controller/imagegenerationbackend_controller.go:129-173 | the tables are in lockstep at every point of every interleaving if and only if no LLM and image backend share a name |
| Fallback.HandleRequest | pkg/route/route/route.go:118-196 | ends, makes min(first success, N + 1) attempts (one without a fallback), returns the last result, with exactly this order of attempts and sleeps |
| Fallback.AttemptsUnique | pkg/route/route/route.go:173-196 | the stated conditions determine the number of attempts |
| Fallback.EndsIff | pkg/route/route/route.go:173-196 | there is such a number if and only if there is no fallback, MaxRetries is set, or some attempt works |
| Fallback.AttemptsIfAllFail | pkg/route/route/route.go:173-196 | with MaxRetries N and no success there are N + 1 attempts, and four if N is zero |
| Fallback.TraceInOrder | pkg/route/route/route.go:118-196 | the attempts come in order, each PreDelay right before a retry and each PostDelay right after a failed attempt |
| Fallback.Sleeps | pkg/route/route/route.go:130-185 | PreDelay once per attempt after the first if MaxRetries is set, PostDelay once per failed attempt |
| RequestRewrite.ModifyBufferBodyAndParsed | pkg/types/openai/common.go:19-44 | the new parsed body is what the new buffer parses to, and for simple keys what RFC 6902 says |
| RequestRewrite.ChatCompletionsRequest.Modify | pkg/types/openai/common.go:19-44 | buffer and parsed body agree after every patch, or both are lost; without a buffer the patch panics |
| RequestRewrite.ChatCompletionsRequest.SetModel | pkg/types/openai/chat_completions_request.go:96-107 | works exactly for a body that holds a model, and panics exactly without a buffer |
| RequestRewrite.ChatCompletionsRequest.SetDefaultParams | pkg/types/openai/chat_completions_request.go:109-129 | in any map order, defaults fill in only what the body lacks |
| RequestRewrite.ChatCompletionsRequest.SetOverrideParams | pkg/types/openai/chat_completions_request.go:131-150 | in any map order, the overrides win |
| RequestRewrite.ChatCompletionsRequest.RemoveParamKeys | pkg/types/openai/chat_completions_request.go:152-166 | exactly the listed keys go, present or not |
| RequestRewrite.ChatCompletionsRequest.RequestModifier | pkg/clusters/filters/openai/request.go:52-74 | the four rewrites give the closed form, or fail exactly for a body without a model, or panic exactly without a buffer |
| RequestRewrite.Precedence | pkg/clusters/filters/openai/request.go:52-74 | for each key: removed > override > cluster name for model > client > default |
| RequestRewrite.RetryAtSameCluster | pkg/clusters/filters/openai/request.go:52-74 | re-applying the rewrite changes nothing and is possible, if and only if "model" is not removed |
| RequestRewrite.NextAttemptRefused | pkg/types/openai/chat_completions_request.go:96-107 | after a rewrite the next one is refused if and only if the cluster removes "model" |
| RequestRewrite.RetryAtOtherCluster | pkg/route/route/route.go:118-196 | a fallback to another cluster is possible and sends what it would have sent at first, for every body, if and only if the first cluster does not remove "model" and the second decides or repeats all that the first one did |
| RequestRewrite.ChatCompletionsRequest.RewriteForAttempts | pkg/route/route/route.go:118-196 | the in-place rewrites of any sequence of attempts, going on after a refusal, end as the fold says: with its body, with nothing after a refusal, or in a panic |
| RequestRewrite.AttemptsEnd | pkg/route/route/route.go:118-196 | for a body with a model: a body is left if and only if no cluster but the last removes "model", and the handler panics if and only if a cluster with at least two more attempts after it removes it |
| RequestRewrite.FallbackPanics | pkg/route/route/route.go:173-196 | a fallback to one failing cluster panics if and only if the cluster removes "model" and MaxRetries is not 1 (zero means three) |
| RequestRewrite.LastSends | pkg/route/route/route.go:118-196 | when the attempts leave a body, the last one sends under each key what the latest attempt that removes or overrides it decides, else the client's value, else the first default since |
| Bootkit.ActKeepsSound | pkg/bootkit/bootkit.go:68-105 | every action of a task, the wait group, the context or the caller keeps the protocol's invariant |
| Bootkit.RunKeepsSound | pkg/bootkit/bootkit.go:68-105 | so does every interleaving |
| Bootkit.AnswerMeans | pkg/bootkit/bootkit.go:68-143 | nil only if every task returned nil; any error but the context's was returned by a task |
| Bootkit.AnswerSays | pkg/bootkit/bootkit.go:68-143 | on the actions of the run: an error other than the context's is one that a task returned and the caller received; nil only if every task returned nil and none an error |
| Bootkit.NeverStuck | pkg/bootkit/bootkit.go:68-105 | while the caller waits and no task function is running, something can move without the context |
| Bootkit.RunsAreBounded | pkg/bootkit/bootkit.go:87-105 | every interleaving with n tasks has at most 4 n + 4 actions |
| Bootkit.LateErrorsLeak | pkg/bootkit/bootkit.go:87-105 | a task that wants to report after the caller returned waits for ever, and the wait group never finishes |
| Bootkit.FinishesIff | pkg/bootkit/bootkit.go:68-105 | after the caller returned the wait group can still finish if and only if no task is waiting to report an error |
| Bootkit.LeakReachable | pkg/bootkit/bootkit.go:68-105 | a run of n tasks can leave one waiting for ever if and only if n >= 1, and without a cancelled context if and only if n >= 2 |
| Bootkit.HooksStoppedAgain | pkg/bootkit/bootkit.go:156-235 | over every interleaving of calls, Start and Stop never overlap, and the stop hooks are called once by every Start and once more by every Stop |
| Bootkit.StopWaitsForStart | pkg/bootkit/bootkit.go:228-235 | while a Start runs no Stop gets the mutex and none cancels its context |
| Bootkit.HooksNeedAllRunnables | pkg/bootkit/bootkit.go:156-208 | over every interleaving of Start, start hooks are launched only after every runnable returned nil |
| Bootkit.StartSays | pkg/bootkit/bootkit.go:156-226 | the same law for the runnables and the stop hooks inside Start; start hooks are launched only if every runnable returned nil and none an error |
| Bootkit.StopSays | pkg/bootkit/bootkit.go:228-235 | the same law for the stop hooks of Stop, on what happened since it got the mutex |

## Left out

- LocalLimiter.RateLimiter.CheckBucket: windows are whole seconds; the rounding of a float quotient by a
  fraction of a second, and of `Seconds()` for very long idle times, is not modelled.
- LimiterRuns.RefillNeverOverflows: for positive windows; `LimiterOverflow.RefillFitsIff` has the exact
  condition, and the wrap-around itself is not modelled.
- A changed limit inside a run: the bounds allow for it, the refinement of the ideal limiter fixes one
  quota per key, which `RatePolicy.QuotaOfEachKey` justifies for a fixed policy list.  A window that
  changes while the limit stays is not adopted by the program, and runs with changing windows are not
  covered.
- LimiterAnswers.DeniedIff: for one refilling quota per key and runs that do not evict the key; with
  changing limits and evictions `LimiterBounds` bounds what is admitted from above.
- LimiterExpiry.KeyRefinesIdeal: for runs without eviction; what eviction can add is in
  `LimiterKeys.KeyRun` and `LimiterBounds.AdmissionBound`.
- The FNV hash: the shard of a key is any function of the key.
- Rounding in the Lua script: tokens are exact rationals, and all clients share one nondecreasing clock.
- RedisBucket.Server.Eval: windows of less than a millisecond, which the program passes on as zero, so
  that the script divides by it.
- RedisAnswers.DeniedIff: for one limit; a call that brings another limit finds a full bucket
  (`RedisBucket.AlternatingNeverDenied`).
- RedisBucket.AdmissionBound: for limits that are not negative; a negative limit admits nothing
  (`NeverServes`).
- Round robin with total weight 0 and least-request with weights that are not positive: the program
  panics or divides by zero.
- Concurrent calls of the balancers: the draw and the update of the index are one step; ratios are
  exact, which float64 is for counts and weights below about 2^26; counters stay below 2^31.
- Byte sequences that are not valid UTF-8: streams are sequences of Unicode scalar values.
- Write errors of the response writer, chunk callbacks and timestamps of the pump.
- The JSON library: what it accepts, renders and extracts is a parameter; the results that need more
  state it (`Lawful`, `Standard`).
- Patch paths with `/` or `~` in a key: only the agreement of buffer and parsed body is stated.
- Fallback.HandleRequest: requires that the loop can end; without that the program retries for ever, and
  `EndsIff` shows that the condition is exact.
- Start hooks of Bootkit: their error channel and wait group are one move that leads to the stop hooks;
  timers of contexts are arbitrary cancellations.
- Prefix rules made from ModelRoute resources, authentication globs, image metering, text-to-speech
  adapters, HTTP, gRPC, Redis and Kubernetes calls, logging and generated code.
