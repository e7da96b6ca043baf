# Verified models of the Cloud DevBox services

A Dafny model of the parts of Cloud DevBox whose behaviour is hardest to see from one function: the gateway's
circuit breakers, service registry, load balancing, rate limiting and request accounting; the media router's
store; the web client's configuration export and import and its collaborative editor; the command line's YAML
printer; the desktop client's SSH configuration file; and the collaboration server's replicated document.

`dafny verify dfyconfig.toml` checks the whole project.

## How it is laid out

Each component has its own module, in a file of the same name.

| file | models |
|---|---|
| `CircuitBreaker.dfy` | the gateway's breaker, and the same machine described by its call history alone |
| `LoadBalance.dfy` | round-robin counting over a wrapping counter, first minima, the response time average |
| `Registry.dfy`, `RegistryRuns.dfy` | the service registry, and whole runs of registry operations |
| `RateLimit.dfy` | the two rate limiters over an expiring counter store |
| `GatewayMetrics.dfy` | concurrent requests as interleaved atomic steps over the counters and the registry |
| `Sfu.dfy`, `SfuHistory.dfy` | the media router's store, and whole runs read against their own history |
| `YamlImport.dfy`, `YamlPrinter.dfy`, `ConfigExport.dfy` | the import loop, the recursive printer, the exported configuration |
| `CollabEditor.dfy` | edit emission and replay |
| `Crdt.dfy`, `CrdtConvergence.dfy`, `CrdtEditing.dfy` | the replicated document of the collaboration server, its convergence, and what edit messages make of it |
| `SshConfig.dfy` | the SSH configuration appender |
| `Text.dfy`, `Common.dfy` | trimming, splitting, and shared types |

Code that updates fields in place is a class whose methods are proved against a function on the class's value
(`Step`, `Do`, `Apply`, `Write`, ...); the lemmas are about those functions, over every input and every run. Clocks,
random identifiers and the answers of remote parties are arguments. `f64` averages are reals and counters are
naturals. A method is one step, except that `leave_room`, which gives its lock up in the middle, is also modelled as
two steps, and that each atomic update and each registry call of `request_logging` is a step of its own.

## Where the code differs from what it is said to do

Each of these is a lemma below, with the exact condition under which the promise holds.

* The rate limiter is described as a token bucket with bursts; it is a fixed window counter (script) and a counter
  whose expiry every request renews (pipe). `burst_size` has no effect. The script keeps to its limit in every hour
  exactly for limits of zero and one: `LimitsEveryWindowIff`. A user of the pipe can starve: `PipeAllowsExactly`,
  `PipeStarves`.
* The replicated document's operations are described as commutative. Two concurrent insertions commute exactly when
  exactly one of them stops the scan of the other (`AlwaysCommuteIff`): never for two insertions at the front or with
  the same site and clock, always for two insertions behind other characters with stamps of their own
  (`OneBlocksWhen`). A batch with stamps of its own converges in all causal orders exactly when at most one insertion
  is at the front and that one comes before or outranks all others (`ConvergesIff`). The scenario of
  `TestProperty6_CRDTConvergence`, two users inserting at position 0 at once, is outside: two different letters end in
  the order of arrival (`FrontInsertsNeverCommute`).
* Two messages of one user can give two characters one id, and a deletion then removes the wrong one (`ClockReuse`,
  `EraseIff`). An insertion inside the text stays where it was made only if characters of higher rank shelter it
  (`InsertAtPosition`, `InPlaceIff`); one user alone types in place at the end only (`AloneAtEndOnly`).
* A replaced text is sent as an insertion followed by a deletion at the same offset, so the deletion removes part of
  the new text. `EventConvergesIff`, `RunInStepIff`, `OverwritingDiverges`
* Exporting a configuration and importing it loses an empty description, surrounding white space, and quotes at
  either end: `ExportImportIff`. For the trees the command line prints, `RoundTripIff` says which ones come back.
* An SSH host block is withheld when the id's marker is already in the file, if only as the beginning of a longer
  one. `OneBlockIff`, `OneBlockUnlessHidden`
* A room can be closed with somebody in it, exactly when a join that came between the two steps of a leave still
  stands: `CloseDiscardsIff`. In every other respect the two steps are an atomic leave, exactly when no room creation
  is refused for the lingering room's place: `TwoStepLeave`.
* Round robin is uneven across the counter's wrap unless the number of instances divides its range. `EvenIffDivides`
* With the other two strategies all requests granted between health reports and registrations of a service go to one
  instance. `OneInstanceTakesAll`

## Model

| member | source | states |
|---|---|---|
| `CircuitBreaking.CircuitBreaker.AllowRequest` | services/gateway/src/discovery.rs:95-114 | admits unless open with the cool-down running; half-opens exactly when an open breaker admits, and clears the success count |
| `CircuitBreaking.CircuitBreaker.RecordSuccess` | services/gateway/src/discovery.rs:117-132 | the whole next state on a success, in each of the three states |
| `CircuitBreaking.CircuitBreaker.RecordFailure` | services/gateway/src/discovery.rs:135-152 | the whole next state on a failure, late failures while open included |
| `CircuitBreaking.RefinesHistory` | services/gateway/src/discovery.rs:93-153 | at every point of every timed trace the stored breaker equals the one computed from windows of the trace alone |
| `CircuitBreaking.LastFailureIsLatest` | services/gateway/src/discovery.rs:137 | the recorded failure time is that of the latest failure of the trace, and absent exactly when there was none |
| `CircuitBreaking.StreakIsWidestWindow` | services/gateway/src/discovery.rs:119-121 | the closed counter is the largest number of failures in any success-free window up to now |
| `CircuitBreaking.OpensExactly` | services/gateway/src/discovery.rs:139-145 | a closed breaker opens if and only if this failure completes the threshold with no success between, all while closed |
| `CircuitBreaking.HalfOpensExactly` | services/gateway/src/discovery.rs:98-110 | an open breaker half-opens if and only if a request's clock reading is at least the timeout after that of the latest recorded failure |
| `CircuitBreaking.AdmitsExactly` | services/gateway/src/discovery.rs:95-114 | in clock readings: a request is admitted if and only if the breaker is not open or the timeout has gone by since the latest failure, and refused if and only if it is open and the timeout has not |
| `CircuitBreaking.ClosesExactly` | services/gateway/src/discovery.rs:122-129 | a half-open breaker closes if and only if this success completes the threshold since it half-opened with no failure between; any failure opens it again |
| `CircuitBreaking.ClosedCounters` | services/gateway/src/discovery.rs:93-153 | counters stay below their thresholds, a breaker that is not closed knows its last failure (the fallback at lines 108-110 is unreachable), and counters never exceed the number of calls |
| `CircuitBreaking.CoolDown` | services/gateway/src/discovery.rs:98-107 | once a failure leaves the breaker open, every request within the timeout of it is refused |
| `CircuitBreaking.FiveFailuresOpen` | services/gateway/src/discovery.rs:85 | with the default settings the fifth failure in a row opens a breaker, and no earlier one does |
| `CircuitBreaking.ThreeSuccessesClose` | services/gateway/src/discovery.rs:86 | and the third success in a row after half-opening closes it, and no earlier one does |
| `LoadBalance.QuoRemIs` | services/gateway/src/discovery.rs:310 | the quotient and remainder used in the counting proofs are the machine's division and remainder |
| `LoadBalance.CounterIs` | services/gateway/src/discovery.rs:309-311 | the counter after k selections is the start plus k, modulo the word |
| `LoadBalance.CountIs` | services/gateway/src/discovery.rs:302-313 | exactly how often each instance is chosen, for every start, every number of selections and any number of wraps |
| `LoadBalance.FairWithoutWrap` | services/gateway/src/discovery.rs:302-313 | without a wrap every instance is chosen floor(k/n) or ceil(k/n) times |
| `LoadBalance.CountsDifferBy` | services/gateway/src/discovery.rs:309-312 | the exact difference of two instances' counts: each wrap adds the lead of one whole pass |
| `LoadBalance.FairAcrossOneWrap` | services/gateway/src/discovery.rs:311 | across one wrap any two counts differ by at most two |
| `LoadBalance.EvenIffDivides` | services/gateway/src/discovery.rs:309-312 | counts stay within one of each other over all windows if and only if the number of instances divides the counter's range |
| `LoadBalance.UnevenWindow` | services/gateway/src/discovery.rs:309-312 | when it does not divide, a window of one more than the word leaves two instances two apart |
| `LoadBalance.FirstMin` | services/gateway/src/discovery.rs:316-335 | the selected position holds a minimum, and the first one |
| `LoadBalance.DifferencesShrink` | services/gateway/src/discovery.rs:361-365 | over any run of samples the difference of two averages is multiplied by 0.9 per sample |
| `LoadBalance.OrderIsKept` | services/gateway/src/discovery.rs:361-365 | the order of two averages, ties included, never changes |
| `LoadBalance.StaysInHull` | services/gateway/src/discovery.rs:361-365 | an average stays within the bounds of its start and its samples |
| `LoadBalance.SelectionStaysPut` | services/gateway/src/discovery.rs:325-335 | the first minimum of the averages is at the same position after any run of samples |
| `Registry.ServiceRegistry.Register` | services/gateway/src/discovery.rs:191-203 | the instance is appended, a default breaker is added only if there is none, nothing else changes |
| `Registry.ServiceRegistry.GetInstance` | services/gateway/src/discovery.rs:255-299 | the answer and the whole next registry, in the order breaker, unknown service, no healthy instance, strategy |
| `Registry.ServiceRegistry.SelectRoundRobin` | services/gateway/src/discovery.rs:303-313 | the index is the old counter modulo the number of instances and the counter advances by one, wrapping |
| `Registry.ServiceRegistry.RecordSuccess` | services/gateway/src/discovery.rs:349-367 | the breaker hears a success and every instance of the service averages the sample in |
| `Registry.ServiceRegistry.RecordFailure` | services/gateway/src/discovery.rs:370-375 | only the named breaker hears a failure |
| `Registry.ServiceRegistry.UpdateInstanceHealth` | services/gateway/src/discovery.rs:406-422 | the first instance with the id, and no other, takes the report |
| `Registry.ServiceRegistry.UpdateFirst` | services/gateway/src/discovery.rs:409-420 | the loop over the instances stops at the first match |
| `Registry.FirstWith` | services/gateway/src/discovery.rs:409-419 | the position is the first with the id, or the length when there is none |
| `Registry.Healthy` | services/gateway/src/discovery.rs:274 | every healthy instance passes the filter, once and in the order of the list, and no other |
| `Registry.Positions` | services/gateway/src/discovery.rs:274 | the positions of the healthy instances: strictly increasing, all of them, no others |
| `RegistryRuns.StepKeepsGood` | services/gateway/src/discovery.rs:156-422 | every operation keeps: services and breakers have the same names, counters belong to services, breakers stay within their thresholds |
| `RegistryRuns.AlwaysGood` | services/gateway/src/discovery.rs:156-422 | so does every run |
| `RegistryRuns.AlwaysConsistent` | services/gateway/src/discovery.rs:406-422 | for instances registered healthy with no failures, an instance is healthy if and only if it has no consecutive failures, in every reachable state |
| `RegistryRuns.InstancesAreRegistrations` | services/gateway/src/discovery.rs:191-196 | a service's instances are its registrations in order; no run loses, repeats, reorders or re-addresses them |
| `RegistryRuns.InstancesAreTold` | services/gateway/src/discovery.rs:406-422 | in every run, an instance's health and last check are those of the latest report that reached it (the first registration with the id), its failures the unhealthy reports since the latest healthy one, its response time the average over the successes recorded since its registration, and the rest as registered |
| `RegistryRuns.StepChanges` | services/gateway/src/discovery.rs:406-422 | a report changes the first instance with its id and no other, and not its response time; a success changes response times only |
| `RegistryRuns.AnswerExactly` | services/gateway/src/discovery.rs:255-299 | each error of `get_instance` if and only if its condition; a success is a healthy registered instance |
| `RegistryRuns.AnswerIsBest` | services/gateway/src/discovery.rs:316-335 | with the other strategies the answer is the first of the healthy instances with the fewest connections or the least response time |
| `RegistryRuns.ServicesAreIndependent` | services/gateway/src/discovery.rs:156-422 | an operation on one service changes nothing of another |
| `RegistryRuns.OwnPartDecides` | services/gateway/src/discovery.rs:255-299 | what a service answers and becomes depends only on its own part of the registry |
| `RegistryRuns.BreakersAreHistories` | services/gateway/src/discovery.rs:198-203 | in every run exactly the registered services have a breaker, and it is the one whose history is the calls made for that service since its registration |
| `RegistryRuns.RefusedExactly` | services/gateway/src/discovery.rs:257-267 | `get_instance` refuses for the breaker if and only if, after the calls made for the service since its registration, the breaker is open and the request's clock reading is less than thirty seconds after that of the latest failure |
| `RegistryRuns.QuietRun` | services/gateway/src/discovery.rs:255-367 | while a service that serves only gets requests and successes, it keeps serving and every request is granted |
| `RegistryRuns.CounterCountsGrants` | services/gateway/src/discovery.rs:302-313 | in every run, whatever else happens in it, a service's counter advances by its granted requests and by nothing else |
| `RegistryRuns.TurnsFollowCounter` | services/gateway/src/discovery.rs:302-313 | in every run, refusals, failures and health reports included, the i-th granted request gets the i-th turn of one uninterrupted run of the counter over the instances healthy at that moment |
| `RegistryRuns.TurnsFromTheStart` | services/gateway/src/discovery.rs:309-312 | counted from the start of the registry, the i-th grant of a service is at i modulo the range of the counter, modulo the number of healthy instances |
| `RegistryRuns.PositionsAreFair` | services/gateway/src/discovery.rs:302-313 | whenever all granted requests found n healthy instances: floor or ceiling of the share for each position until the wrap, at most two apart across one wrap |
| `RegistryRuns.TurnsAreFair` | services/gateway/src/discovery.rs:302-313 | the same for turns, whether or not the instances have ids of their own |
| `RegistryRuns.RoundRobinIsFair` | services/gateway/src/discovery.rs:255-313 | fairness of `get_instance` itself over any run without health reports and registrations of the service, whatever its breaker does: every healthy registered instance answers floor or ceiling of its share of the granted requests until the wrap, and no two are more than two apart across one wrap |
| `RegistryRuns.GrantNamesInstance` | services/gateway/src/discovery.rs:274-299 | in such a run a granted request is answered with the registered instance whose turn it is among the healthy ones, as it was at the start but for its response time |
| `RegistryRuns.OneInstanceTakesAll` | services/gateway/src/discovery.rs:316-335 | with the other strategies, over any run without health reports and registrations of the service, a request is granted if and only if its breaker admits it and some instance is healthy, and then goes to one and the same instance |
| `RateLimit.RateLimiter.CheckRateLimit` | services/gateway/src/rate_limit.rs:52-118 | the INCR, EXPIRE, TTL transaction: next store and answer |
| `RateLimit.RateLimiter.CheckRateLimitLua` | services/gateway/src/rate_limit.rs:122-210 | the script: next store and answer |
| `RateLimit.CounterIsLog` | services/gateway/src/rate_limit.rs:138-168 | each stored counter is the number of accepted requests since its window opened, expires one window after that, and never exceeds the limit |
| `RateLimit.HeadersFromLog` | services/gateway/src/rate_limit.rs:138-199 | whether it is accepted, `remaining`, `reset` and `retry_after` as functions of the log: `remaining` falls by one per accepted request and `reset` is constant in a window |
| `RateLimit.UsersAreIndependent` | services/gateway/src/rate_limit.rs:133 | a user's answers are those of a run in which nobody else sends anything |
| `RateLimit.OpenersApart` | services/gateway/src/rate_limit.rs:158-161 | windows of a user open at least one window length apart |
| `RateLimit.SpanBound` | services/gateway/src/rate_limit.rs:138-168 | any stretch of one window length holds at most 2 * max - 1 accepted requests, for every arrival pattern |
| `RateLimit.SpanBoundIsTight` | services/gateway/src/rate_limit.rs:138-168 | a burst around the end of a window meets that bound |
| `RateLimit.LimitsEveryWindowIff` | services/gateway/src/rate_limit.rs:26 | no stretch of an hour holds more than the limit, for all arrival patterns, if and only if the limit is at most one |
| `RateLimit.PipeCounterIsLog` | services/gateway/src/rate_limit.rs:69-80 | the pipe's counter is the number of requests, refused ones included, since the last gap of a window or more, expiring one window after the latest |
| `RateLimit.PipeAllowsExactly` | services/gateway/src/rate_limit.rs:82-103 | the pipe allows a request if and only if it is among the first max of its chain |
| `RateLimit.PipeHeadersFromLog` | services/gateway/src/rate_limit.rs:80-103 | the pipe's whole answer as a function of the log: `remaining` is the limit less the requests of the chain, `reset` is a window after this request, and `retry_after` a whole window |
| `RateLimit.PipeAllowsImpliesLuaAllows` | services/gateway/src/rate_limit.rs:69-103 | every request the pipe allows, the script allows too, on the same requests and clock |
| `RateLimit.PipeStarves` | services/gateway/src/rate_limit.rs:71-79 | a user refused by the pipe stays refused while they keep asking within the window |
| `RateLimit.LuaRecovers` | services/gateway/src/rate_limit.rs:148-161 | the script accepts the first request after the window |
| `GatewayMetrics.Metrics.IncrementRequests` | services/gateway/src/state.rs:274-277 | total and active grow by one |
| `GatewayMetrics.Metrics.CompleteRequest` | services/gateway/src/state.rs:280-283 | active falls by one, wrapping below zero, and the duration is added |
| `GatewayMetrics.Metrics.LogRequest` | services/gateway/src/middleware.rs:57-73 | alone, a request leaves active as it was, adds one to total, its duration, and one error exactly for a 4xx or 5xx status |
| `GatewayMetrics.AppState.ProxyRequest` | services/gateway/src/state.rs:176-262 | the registry calls made: one choice and, if an instance was chosen, exactly one record of the right kind; the result succeeds if and only if an instance was chosen, a response came and its body could be read, and otherwise names what went wrong: the registry, a timeout, the connection, or the exchange |
| `GatewayMetrics.TaskMakesProxyCalls` | services/gateway/src/state.rs:176-262 | a request's own atomic steps, from the choice of an instance to the record, make exactly the registry calls of `proxy_request`; a response is answered with its own status and a failed send with an error |
| `GatewayMetrics.AlwaysBalanced` | services/gateway/src/state.rs:274-288 | in every interleaving each counter is the number of requests at the stages it stands for |
| `GatewayMetrics.NeverUnderflows` | services/gateway/src/state.rs:280-283 | active is positive whenever a request is about to decrement it |
| `GatewayMetrics.Conservation` | services/gateway/src/middleware.rs:57-73 | total is active plus completed plus those between their two increments; errors never exceed completions |
| `GatewayMetrics.QuietAccounts` | services/gateway/src/middleware.rs:57-73 | when all requests are done nothing is active, all are counted, and the errors are exactly the answers of the 4xx and 5xx classes |
| `GatewayMetrics.OneRecordPerSend` | services/gateway/src/state.rs:202-247 | every send that returned made exactly one record, of its own service and outcome, and nothing else made any |
| `GatewayMetrics.FailuresAreErrors` | services/gateway/src/state.rs:245-259 | at rest, a breaker was told of at most as many failures as there are counted errors |
| `GatewayMetrics.BreakerHearsEverySend` | services/gateway/src/state.rs:202-247 | the stored breaker is the one whose history holds exactly one success or failure per returned send, in any interleaving, registrations and health reports in between included |
| `Sfu.SfuRouter.CreateRoom` | services/media/src/sfu.rs:99-119 | next store, answer, and the room limit |
| `Sfu.SfuRouter.CloseRoom` | services/media/src/sfu.rs:160-167 | next store and answer |
| `Sfu.SfuRouter.JoinRoom` | services/media/src/sfu.rs:171-202 | next store, answer, and the participant limit |
| `Sfu.SfuRouter.LeaveRoom` | services/media/src/sfu.rs:205-222 | the participant leaves and an emptied room is closed |
| `Sfu.SfuRouter.CreateTransport` | services/media/src/sfu.rs:225-293 | the slot of the direction is replaced by a new unconnected transport |
| `Sfu.SfuRouter.ConnectTransport` | services/media/src/sfu.rs:296-327 | the send slot is tried first, then the receive slot |
| `Sfu.SfuRouter.Produce` | services/media/src/sfu.rs:330-365 | the producer is added only on a connected send transport of that id |
| `Sfu.SfuRouter.FindProducerIn` | services/media/src/sfu.rs:382-386 | the search of the room finds the one producer with the id, or none |
| `Sfu.SfuRouter.Consume` | services/media/src/sfu.rs:368-416 | the consumer copies the producer's kind and parameters; the errors in the code's order |
| `Sfu.SfuRouter.PauseProducer` | services/media/src/sfu.rs:419-439 | only that producer's flag is set |
| `Sfu.SfuRouter.ResumeProducer` | services/media/src/sfu.rs:442-462 | only that producer's flag is cleared |
| `Sfu.SfuRouter.SetVideoQuality` | services/media/src/sfu.rs:465-487 | only that participant's quality changes |
| `Sfu.StepKeepsGood` | services/media/src/sfu.rs:99-487 | every call keeps the store invariant: limits, keys equal ids, directions match slots, producers imply a send transport and consumers a receive transport, no producer id twice |
| `Sfu.FailureAtomicity` | services/media/src/sfu.rs:99-487 | a refused call changes nothing; an accepted one changes no room but the one it names |
| `Sfu.RefusedExactly` | services/media/src/sfu.rs:99-487 | each of the seven refusals if and only if its condition on the store, in the code's order of precedence; a room is full exactly when it holds the limit |
| `Sfu.LeaveInTwoSteps` | services/media/src/sfu.rs:214-219 | leaving is the removal followed, if it emptied the room, by the close |
| `SfuHistory.AlwaysGood` | services/media/src/sfu.rs:99-487 | the store invariant holds in every reachable state |
| `SfuHistory.ProducerPersists` | services/media/src/sfu.rs:330-365 | while its owner is present a producer is held with the kind and parameters it was created with |
| `SfuHistory.ProducerHasOrigin` | services/media/src/sfu.rs:330-365 | every producer held came from an accepted produce of its owner |
| `SfuHistory.ConsumerAgrees` | services/media/src/sfu.rs:380-407 | each consumer's kind and parameters are those its producer was created with, and agree with the producer while its owner is in the room |
| `SfuHistory.PausedIsLatest` | services/media/src/sfu.rs:419-462 | a producer is paused exactly as the latest accepted pause or resume says |
| `SfuHistory.QualityIsLatest` | services/media/src/sfu.rs:465-487 | a participant's quality is the latest it was set to |
| `SfuHistory.SlotsAreTold` | services/media/src/sfu.rs:225-327 | each slot holds the participant's most recent transport of that direction, connected if and only if a later call connected it |
| `SfuHistory.ProduceDiscipline` | services/media/src/sfu.rs:330-350 | a produce is accepted if and only if it names the participant's most recent send transport, connected since it was created |
| `SfuHistory.ConsumeDiscipline` | services/media/src/sfu.rs:368-395 | a consume is accepted if and only if the producer is on offer in the room and it names the participant's most recent receive transport, connected since |
| `SfuHistory.ConsumeAnswers` | services/media/src/sfu.rs:397-415 | an accepted consume answers with the id of the one consumer that is new, held for the producer named, with the kind and parameters of the call that produced it; nothing else of the participant changes |
| `SfuHistory.ProduceAnswers` | services/media/src/sfu.rs:352-365 | an accepted produce answers with the id of the one producer that is new in the room, held unpaused with the kind and parameters of the call |
| `SfuHistory.TransportAnswers` | services/media/src/sfu.rs:239-292 | an accepted `create_transport` answers with the id of the unconnected transport now in that slot, which was in neither slot before; the other slot stays |
| `SfuHistory.JoinAnswers` | services/media/src/sfu.rs:184-202 | an accepted join answers with the id of the one participant that is new, under the name given, with nothing yet |
| `SfuHistory.RoomAnswers` | services/media/src/sfu.rs:106-119 | an accepted `create_room` answers with the id of the one room that is new, empty and of the meeting given |
| `SfuHistory.JoinerPersists` | services/media/src/sfu.rs:184-202 | who somebody in a room is, is what the call they joined by said, in every reachable state |
| `SfuHistory.RoomPersists` | services/media/src/sfu.rs:106-119 | and a room's meeting is the one it was created for |
| `SfuHistory.OnOfferIffFound` | services/media/src/sfu.rs:382-386 | a producer is found if and only if somebody still in the room was granted it |
| `SfuHistory.EmptyOnlyWhilePending` | services/media/src/sfu.rs:215-219 | a room that anyone ever joined is empty only between the two steps of a leave |
| `SfuHistory.NeverEmpty` | services/media/src/sfu.rs:205-222 | with one-step leaves such a room is never empty |
| `SfuHistory.TwoStepLeave` | services/media/src/sfu.rs:216-219 | all calls between the steps are answered as after an atomic leave (those on the room itself are lost) if and only if no room creation among them is refused for the lingering room's place; then the end state is that of the atomic leave too |
| `SfuHistory.CloseDiscardsIff` | services/media/src/sfu.rs:216-219 | whatever calls land between the steps, the close discards exactly the accepted joiners who have not left since and whose room was not closed meanwhile; somebody, if and only if there is one |
| `SfuHistory.LateJoinIsAccepted` | services/media/src/sfu.rs:171-202 | a join of the lingering empty room is accepted unless rooms hold nobody at all |
| `YamlImport.ParseYamlConfig` | apps/web/src/pages/Backup.tsx:438-491 | the loop computes the fold of `ReadLine` over the lines, and the result the fields with `name` required |
| `YamlImport.FieldsAreTheirOwn` | apps/web/src/pages/Backup.tsx:474-491 | every field of the result is what was read under its own name, the template under either of two, and there is a result if and only if there is a name |
| `YamlImport.NoiseIsIgnored` | apps/web/src/pages/Backup.tsx:445-446 | a blank or comment line changes nothing, wherever it stands |
| `YamlImport.OddIndentIsIgnored` | apps/web/src/pages/Backup.tsx:448-472 | nor does a line indented by anything but none, two or four |
| `YamlImport.LineIsIff` | apps/web/src/pages/Backup.tsx:445-450 | a key is read back from the line it was laid out in, at its indentation, if and only if it holds no colon and does not begin with white space or a number sign |
| `YamlImport.LineIs` | apps/web/src/pages/Backup.tsx:445-450 | then the value read is the rest of the line, trimmed |
| `YamlImport.ReadTextIsCarried` | apps/web/src/pages/Backup.tsx:439-472 | whatever the file, no text read from it holds a line feed, and every key is one that a line carries |
| `YamlImport.LeafValueIffPlain` | apps/web/src/pages/Backup.tsx:450-472 | a one-line text comes back unchanged if and only if it is non-empty, trimmed and unquoted at both ends |
| `YamlPrinter.Output.PrintYamlValue` | apps/cli/src/output.rs:40-71 | the printed lines are the layout of the value, for every value and indentation |
| `YamlPrinter.Output.PrintEntry` | apps/cli/src/output.rs:45-53 | the lines of one object entry |
| `YamlPrinter.Output.PrintItem` | apps/cli/src/output.rs:58-66 | the lines of one array item |
| `YamlPrinter.LinesAreWalked` | apps/cli/src/output.rs:40-81 | reading the printed lines of any object or array, from any state, is walking over its entries and items |
| `YamlPrinter.ImportReadsThreeLevels` | apps/web/src/pages/Backup.tsx:439-472 | from the printed lines of any object or array with keys a line carries, arrays and empty keys inside included, the import reads exactly what is kept of three levels |
| `YamlPrinter.KeptIsWholeIff` | apps/cli/src/output.rs:40-81 | what is kept of an array-free tree is the whole tree if and only if it fits in the levels |
| `YamlPrinter.BeginsWithFirstKey` | apps/cli/src/output.rs:40-54 | the printed text begins with the first key and a colon; so only trees whose first key begins with a brace, a bracket or a quotation mark can print what the import's `JSON.parse` (Backup.tsx:435) accepts |
| `YamlPrinter.RoundTripIff` | apps/cli/src/output.rs:40-81 | for every object tree, printing it and importing the text with the loop over the lines gives the tree back if and only if it is at most three levels deep, without arrays, with keys a line carries and plain leaves, none of them under a section with an empty key |
| `YamlPrinter.ScalarsComeBackAsTexts` | apps/cli/src/output.rs:73-81 | a string or number comes back as the text it is, truth values and null as the words `true`, `false` and `null` |
| `YamlPrinter.AloneOrInArrays` | apps/cli/src/output.rs:56-70 | a scalar alone is one line; a text or an array in an array is an item, the array in its compact form |
| `YamlPrinter.ArrayBecomesSection` | apps/cli/src/output.rs:56-68 | any array under a key is read back as a section, with a field for every item |
| `YamlPrinter.ItemInSection` | apps/web/src/pages/Backup.tsx:455-465 | what any item line does to any state with an open section |
| `YamlPrinter.ItemWithoutColon` | apps/web/src/pages/Backup.tsx:449-450 | an item without a colon is read as the key of an empty section, dash included |
| `YamlPrinter.ItemWithColon` | apps/web/src/pages/Backup.tsx:449-450 | an item with a colon is read as a key, dash included, and the trimmed rest |
| `ConfigExport.ExportIsRead` | apps/web/src/pages/Backup.tsx:378-388 | what the import makes of the exported lines, whatever texts they carry |
| `ConfigExport.EnvironmentIsRead` | apps/web/src/pages/Backup.tsx:378-388 | from an environment to what the import reads: each field under its own name, with the default where it is not given |
| `ConfigExport.ExportImportIff` | apps/web/src/pages/Backup.tsx:378-388 | for every environment, importing the exported text gives back every printed field if and only if each is plain |
| `ConfigExport.EmptyDescription` | apps/web/src/pages/Backup.tsx:380 | an empty description comes back as an empty section |
| `CollabEditor.Editor.OnDidChangeModelContent` | apps/web/src/components/CollaborativeEditor.tsx:329-347 | nothing is sent for remote changes; otherwise an insertion and then a deletion per change, in order |
| `CollabEditor.Editor.ReplayPending` | apps/web/src/components/CollaborativeEditor.tsx:366-416 | the queue's operations for this file are applied in order, nothing is sent, the queue is cleared |
| `CollabEditor.Editor.Replay` | apps/web/src/components/CollaborativeEditor.tsx:375-410 | one operation's effect, positions clamped to the document |
| `CollabEditor.BeyondTheEnd` | apps/web/src/components/CollaborativeEditor.tsx:378-410 | beyond the end of the document an insertion appends and a deletion takes what there is |
| `CollabEditor.Editor.ApplyRemoteEdit` | apps/web/src/stores/collaboration.ts:298-302 | the operation joins the end of the queue |
| `CollabEditor.BatchesDoNotMatter` | apps/web/src/components/CollaborativeEditor.tsx:375-416 | replaying a queue in batches, however cut, is replaying it at once |
| `CollabEditor.OwnOperationsOnly` | apps/web/src/components/CollaborativeEditor.tsx:376 | operations of other files change nothing |
| `CollabEditor.EmittedChange` | apps/web/src/components/CollaborativeEditor.tsx:337-346 | a replayed change yields the prefix, then (text + old) without its first \|old\| characters, then the suffix |
| `CollabEditor.ChangeConvergesIff` | apps/web/src/components/CollaborativeEditor.tsx:337-346 | that is the intended document if and only if the landed text is the text |
| `CollabEditor.BenignCases` | apps/web/src/components/CollaborativeEditor.tsx:338-345 | pure insertions and deletions are benign; a replacement that is not longer is benign if and only if the old text ends with the new one |
| `CollabEditor.DeleteThenInsert` | apps/web/src/components/CollaborativeEditor.tsx:338-345 | in the other order every change would arrive as intended |
| `CollabEditor.SequentialIsSimultaneous` | apps/web/src/components/CollaborativeEditor.tsx:337 | changes listed from the end, applied one by one at their original offsets, are the simultaneous replacement |
| `CollabEditor.EmittedEvent` | apps/web/src/components/CollaborativeEditor.tsx:337-346 | a replayed event is the simultaneous replacement by the texts that land |
| `CollabEditor.EventConvergesIff` | apps/web/src/components/CollaborativeEditor.tsx:329-416 | a receiver follows an event if and only if every change of it is benign |
| `CollabEditor.RunConverges` | apps/web/src/components/CollaborativeEditor.tsx:329-416 | after any run of benign events from equal documents the documents are equal |
| `CollabEditor.RunInStepIff` | apps/web/src/components/CollaborativeEditor.tsx:329-416 | the documents agree after every event of a run if and only if all its events are benign |
| `CollabEditor.PureRunsConverge` | apps/web/src/components/CollaborativeEditor.tsx:329-416 | every run of pure insertions and deletions converges |
| `CollabEditor.OverwritingDiverges` | apps/web/src/components/CollaborativeEditor.tsx:338-345 | typing a letter over another one leaves the receiver with the old letter |
| `Crdt.CrdtDocument.ApplyInsert` | services/realtime/internal/services/crdt_engine.go:164-202 | the character is put where the two scans stop |
| `Crdt.LandsWhere` | services/realtime/internal/services/crdt_engine.go:164-197 | an anchored insertion lands at the first position behind the first bearer of the anchor's id whose character has the greater site, letter by letter, or the same site and a later clock, and at the end if there is none; without an anchor, at the end |
| `Crdt.AboveIff` | services/realtime/internal/services/crdt_engine.go:187 | one site is greater than another exactly when, where they first differ, it has the greater letter or goes on while the other has ended |
| `Crdt.CrdtDocument.ApplyDelete` | services/realtime/internal/services/crdt_engine.go:205-216 | the first character with the id becomes a tombstone; an unknown id changes nothing |
| `Crdt.CrdtDocument.GetContent` | services/realtime/internal/services/crdt_engine.go:219-230 | the text is the characters that are not tombstones, in order |
| `Crdt.InsertPos` | services/realtime/internal/services/crdt_engine.go:168-190 | the position is at or after the anchor and within the document |
| `Crdt.InsertsCommuteIff` | services/realtime/internal/services/crdt_engine.go:331-336 | two concurrent insertions commute on a document if and only if they aim at different positions or exactly one stops the scan of the other |
| `Crdt.AlwaysCommuteIff` | services/realtime/internal/services/crdt_engine.go:331-336 | they commute on every document if and only if exactly one stops the other, and the empty document already tells |
| `Crdt.OneBlocksWhen` | services/realtime/internal/services/crdt_engine.go:176-190 | which pairs those are: two anchors and different stamps; one anchor and the unanchored insertion outranking; never without anchors |
| `Crdt.InsertDeleteCommuteIff` | services/realtime/internal/services/crdt_engine.go:331-336 | an insertion and a deletion commute if and only if the deletion is not of the inserted id or meets an earlier bearer of it |
| `Crdt.DeletesCommute` | services/realtime/internal/services/crdt_engine.go:331-336 | deletions always commute |
| `Crdt.FrontInsertsNeverCommute` | services/realtime/internal/services/crdt_engine.go:166-190 | two insertions without an anchor commute on no document; the text shows the order of arrival |
| `CrdtConvergence.OrderedConverges` | services/realtime/internal/services/collaboration_service_test.go:347-405 | replicas that deliver the same messages in two orders within any relation that keeps dependent operations apart end in the same document, from any document, as long as of any two insertions the relation leaves unordered exactly one stops the other |
| `CrdtConvergence.StepsConverge` | services/realtime/internal/services/collaboration_service_test.go:347-405 | the same, where only single steps are kept in order and everything that follows from them by chains through the batch counts as ordered |
| `CrdtConvergence.Converges` | services/realtime/internal/services/collaboration_service_test.go:347-405 | so any two causal orders converge as long as of any two insertions, neither of which follows from the other through anchors, exactly one stops the other |
| `CrdtConvergence.AnchoredConverge` | services/realtime/internal/services/collaboration_service_test.go:347-405 | in particular whenever all insertions have anchors and stamps of their own |
| `CrdtConvergence.SendersConverge` | services/realtime/internal/services/collaboration_service.go:294-315 | when every replica hears each sender in order, stamps may repeat: it is enough that an insertion at the front comes before, after, or outranks every insertion of another sender |
| `CrdtConvergence.ConvergesIff` | services/realtime/internal/services/crdt_engine.go:164-202 | a batch with stamps of its own converges in all causal orders from all documents if and only if at most one insertion is at the front and that one comes before or outranks every other |
| `CrdtEditing.InsertAtPosition` | services/realtime/internal/services/crdt_engine.go:265-300 | on any document and at any position: where the insertion lands in the text; it has an anchor exactly at positions inside the text, starts its scan at the position exactly when no earlier character carries the anchor's id, lands at the end without an anchor, and lands at the position exactly when the shielded characters behind the start of the scan are those from the position on |
| `CrdtEditing.DeleteAtPosition` | services/realtime/internal/services/crdt_engine.go:303-327 | on any document: a deletion is made exactly at positions of the text, buries the first character with the id of the one there, and that is the one there exactly when no earlier character carries its id; then the text loses exactly that character |
| `CrdtEditing.EraseIff` | services/realtime/internal/services/collaboration_service.go:316-329 | on any document: a deletion message buries exactly the characters of its range if and only if each is the first to carry its id; then the server's text is the editor's own |
| `CrdtEditing.InPlaceIff` | services/realtime/internal/services/collaboration_service.go:303-315 | where ids do their work, all letters of an insertion message land side by side at its position if and only if it is at the end of the text, or inside it with one-byte letters before the last and every visible character behind sheltered by one that outranks the last letter; then the server's text is the editor's own |
| `CrdtEditing.Width` | services/realtime/internal/services/collaboration_service.go:304 | a letter counts as many bytes as the shortest UTF-8 form that has room for it |
| `CrdtEditing.AloneAtEndOnly` | services/realtime/internal/services/collaboration_service.go:303-315 | where all characters are the sender's, with clocks not above the message's, a message lands in place at the end of the text only |
| `CrdtEditing.ClockReuse` | services/realtime/internal/services/collaboration_service.go:294-315 | "ab" and then "x" from one user give two characters one id, the x lands at the end, and a deletion of the x removes the b |
| `CrdtEditing.CollaborationService.HandleEditOperation` | services/realtime/internal/services/collaboration_service.go:293-330 | the clock of the user advances by one per message, and the document becomes that of the letters inserted one by one at byte offsets, or of the deletions made one by one at one position |
| `CrdtEditing.CollaborationService.InsertText` | services/realtime/internal/services/collaboration_service.go:304-315 | the loop over the letters, counting in bytes |
| `CrdtEditing.AcknowledgedVersion` | services/realtime/internal/services/crdt_engine.go:194-213 | the version acknowledged grows by one per letter inserted and, where the characters of a deletion are the first to carry their ids, by one per character taken from the text |
| `SshConfig.ConfigFile.WriteSshConfig` | apps/desktop/src/ssh.rs:416-436 | the new contents of the file |
| `SshConfig.Idempotent` | apps/desktop/src/ssh.rs:422-426 | after a call the marker is in the file, and a second call for the id changes nothing |
| `SshConfig.SurvivesIff` | apps/desktop/src/ssh.rs:429-433 | a marker in the file survives every later call if and only if it ends with no more white space than the separator restores |
| `SshConfig.MarkersSurvive` | apps/desktop/src/ssh.rs:422-433 | such a marker survives every run of calls |
| `SshConfig.OldTextStays` | apps/desktop/src/ssh.rs:432 | the old text without trailing white space is a prefix of the file after every run |
| `SshConfig.FileContains` | apps/desktop/src/ssh.rs:423 | among blocks of plain requests a marker is found if and only if its id begins an id that has a block |
| `SshConfig.FileIs` | apps/desktop/src/ssh.rs:379-436 | from an empty file, whatever the requests hold, the file is exactly the granted blocks with one empty line between two |
| `SshConfig.GrantedReadsBack` | apps/desktop/src/ssh.rs:378-396 | every request that gets a block is read back from it line by line, host, port and user under their own keywords |
| `SshConfig.OneBlockIff` | apps/desktop/src/ssh.rs:422-433 | whatever the requests hold, a requested id ends up with exactly one block, or with none if and only if its marker was in the file when it was first requested |
| `SshConfig.OneBlockUnlessHidden` | apps/desktop/src/ssh.rs:422-433 | for plain requests, exactly one line of the file is the id's header, or none if and only if a longer id that it begins was requested before it |
| `SshConfig.EqualLengthsNeverHide` | apps/desktop/src/ssh.rs:422-433 | for plain requests with ids of one length every requested id has exactly one header line |

## Left out

- Random selection and `health_check_all` of the registry: the one depends on the clock's low bits, the other returns
  after one instance.
- Registry fields of monitoring only: HTTP client, health check interval, logging.
- Redis errors, the path without Redis, and the choice of the rate limit key from a request. The store's clock is in
  whole seconds and shared by all commands of one call.
- 32-bit counters of breakers and instances are naturals; `ClosedCounters` bounds the breaker's by the calls made.
- Rounding and NaN of `f64` averages; they are reals.
- Cancelled requests: a request dropped between its increment and its decrement stays counted as active, and is not
  part of the model. Relaxed memory ordering is not modelled: each atomic update is one step of one order.
- The registry's `get_instance` and `record_success` release the breakers' lock before they take the instances'; the
  model has each as one step.
- Header filtering and URL building of `proxy_request`, and which error a failed send is turned into beyond its kind.
- ICE, DTLS and port generation, creation times, `get_room` and `get_rtp_capabilities` of the media router;
  random identifiers are arguments that never repeat within a run.
- The JSON branch of the import: the model starts where JSON parsing has failed; `YamlPrinter.BeginsWithFirstKey` says
  which printed trees can get there (the key `{"a"` with the leaf `1}` does). Object keys with a meaning of their
  own in JavaScript (such as `__proto__`) behave like any other key.
- The compact JSON of an array nested directly in an array is a parameter, as are the digits of numbers. A printed root
  that is neither an object nor an array is not read back.
- The environment's server-side export; the model has the text built by the client.
- Editor positions as line and column pairs, line-ending normalisation, undo, cursors and selections.
- The collaboration server's history, broadcast and acknowledgements, its other files and sessions, and creation times;
  messages other than insertions and deletions. Positions and lengths of messages are naturals.
- CrdtEditing.InPlaceIff: stated for documents in which the message's ids are new and the characters from the one before its
  position on are the first to carry theirs, and for positions not past its end; `CrdtEditing.InsertAtPosition` has no
  such condition, and `CrdtEditing.ClockReuse` shows that the service does not keep ids apart.
- CrdtConvergence.ConvergesIff: stated for batches whose insertions have stamps of their own, so that every pair of
  insertions has one fate; for others `CrdtConvergence.OrderedConverges` and `CrdtConvergence.SendersConverge` give
  sufficient conditions.
- File permissions and I/O errors of the SSH file; a file that cannot be read counts as empty, as in the code.
- SshConfig.OneBlockUnlessHidden: reads the answer off the requested ids and the file's lines, as `SshConfig.FileContains` and
  `SshConfig.EqualLengthsNeverHide` do, for ids, hosts, ports and users on one line in which "Host devbox-" does not
  occur: a host with a line feed can write any header itself. `SshConfig.OneBlockIff` has no such condition.
- YamlPrinter.ImportReadsThreeLevels: stated for keys that a line carries; of the others `YamlPrinter.RoundTripIff` says that
  they never come back.
- YamlPrinter.LinesAreWalked: stated for keys that a line carries.
- YamlPrinter.ArrayBecomesSection: stated for items and keys that a line carries; `YamlPrinter.ItemInSection` has any item.
- YamlPrinter.RoundTripIff: stated for objects without repeated keys; the library's maps have none.
- GatewayMetrics.NeverUnderflows: stated for requests that run to their end.
- The desktop, command line and web user interfaces, authentication, and the services written in Go other than the
  replicated document.
