# A verified model of the gLite Workload Manager's core

This Dafny project models the parts of the gLite WMS in which correctness is
least visible from the code, and proves what they promise. `dafny verify
dfyconfig.toml` checks all of it.

| file | models |
|---|---|
| `RetryCounts.dfy` | the counting of retries from the log, and the two limits |
| `TokenProtocol.dfy`, `TokenTheorems.dfy` | the token of a single job as a machine of atomic steps, and what holds on every run |
| `TokenOutcomes.dfy` | what each handling comes to when nothing interferes, and what every step does to wrappers and requests |
| `TokenServer.dfy` | the request handler and the replanner as code; everything they do is a run of that machine |
| `DagEngine.dfy`, `DagTheorems.dfy` | the passes over a DAG, and whole runs of it |
| `EventQueue.dfy`, `Workers.dfy` | the event scheduler under its lock, and any number of workers on it |
| `Distribution.dfy`, `Ranking.dfy`, `BulkMatch.dfy` | weighted choice, ranks, and the matchmaking of collections |
| `BrokerLists.dfy` | the splitting of printed lists |
| `ThreadWindow.dfy` | the bounded window of threads of a job collection |
| `Dom.dfy` | the linked document, its traversal and its search |
| `Base64.dfy` | the base64 encoder with its 32-bit accumulator |

**Tokens.** A job owns one token file. A wrapper may start the payload only by
removing the token with its own number; on a resubmission the manager renames
the token, and whether that works decides between a shallow and a deep
resubmission. The machine lets any wrapper move between any two file operations
of the manager. `Conservation`, `RetryBound`, `AbortIsFinal` and
`NumberNeverDecreases` are about all its runs, and every method of `JobServer`
keeps a record of steps that is such a run. `TokenOutcomes` says in terms of
files, log and counts what a handling comes to when nothing interferes.

One property one might expect is false: a replan request that is handled when
no token is left makes a new one, so the payload can start twice without a deep
resubmission (`ReplanAfterStartRunsTwice`). The exact condition is the guard of
the token's creation, `NeedsToken`: the count that the request carries is not
positive or exceeds the number found, and no temporary token is there.
`CreatesExactly` and `RequestMakesTokenExactly` prove it for the handling of a
request, and `ConservedExactly` for whole runs: tokens are conserved at every
moment if and only if no request is handled that finds the guard true and gets
its token (`TokensMade` is 0). The theorems about what is logged and which
wrapper can start hold under that condition. `FrozenUnlessReopened` says
exactly when a request undoes an abort, and `OrderlyReplansConserve` gives a
discipline of handling under which no request makes a token. The limit of
replans does not stop a job, because the file that is unlinked has just been
renamed (`ReplanLimitDoesNotStop`).

**DAG.** A pass is proved to have exactly the effect of `PassLeads`, although
colours change during the walk; `PassInStatuses` says the same without colours,
in terms of statuses. In `DagTheorems` passes alternate with anything
that may happen to the nodes. Every run for ever reaches its verdict if there is
always another pass and no node stays in flight for ever; `VerdictWithin` gives
a bound on the passes for any number of them that find the same nodes at work.

**Scheduler.** The comparison of times by `<=` is not an ordering; with it
lower_bound finds the first event strictly later than now, and that is what is
modelled. Line 185 of events.cpp evaluates the beginning of the waiting queue
without asking whether it is empty. `FaultExactly` says in which state that goes
wrong, and `FaultReachableExactly` that such a state is reached with two workers
or more, and never with one. What the worker does then is left undefined: it
stays out of the run.

**Search.** The first test of find and the test of ++ differ: without a name,
++ ignores the namespace it was given, and for type zero it accepts every
element (`FindsAllTheRest`).

## Model

| member | source | states |
|---|---|---|
| `RetryCounts.FindLastDeepResubmission` | org.glite.wms.core/src/lb_utils.cpp:525-536 | the position of the last deep resubmission, or the end when there is none |
| `RetryCounts.GetRetryCounts` | org.glite.wms.core/src/lb_utils.cpp:540-565 | the two counts equal a replay of the log from its beginning in which every deep resubmission resets the shallow count |
| `RetryCounts.ReplayFromLastDeep` | org.glite.wms.core/src/lb_utils.cpp:540-565 | counting from the last deep resubmission on, found by searching backwards, is the same as replaying |
| `RetryCounts.BelowLimit` | org.glite.wms.core/src/submission_utils.cpp:122-125 | below the announced limit max(0, min(job, system)) means below both limits of a job that has one |
| `RetryCounts.ReplayCounts` | org.glite.wms.core/src/lb_utils.cpp:540-565 | the counts are numbers of occurrences: of deep resubmissions in the log, of shallow ones behind the last deep one |
| `RetryCounts.CheckShallowCount` | org.glite.wms.core/src/submission_utils.cpp:127-149 | passes exactly if the job has a limit and the count is below it and below the system limit; a failure reports the limit that is reached, the job one first, none or a negative one standing for zero |
| `RetryCounts.CheckDeepCount` | org.glite.wms.core/src/submission_utils.cpp:151-168 | the same for deep retries, where the system limit is reported as it is |
| `TokenProtocol.StepKeepsInv` | org.glite.wms.core/src/submit_request.cpp:630-770 | every atomic step of handler, replanner and wrappers keeps the invariant: tokens accounted for, counts bounded, files as the phase expects |
| `TokenProtocol.Invariant` | org.glite.wms.core/src/submit_request.cpp:630-770 | the invariant holds after every sequence of steps from a new job |
| `TokenProtocol.Renumber` | org.glite.wms.core/src/replanner.cpp:185-204 | the replanner leaves the token under the next number whether or not the limit of replans is reached |
| `TokenTheorems.ConservedExactly` | org.glite.wms.core/src/submit_request.cpp:717-736 | at every moment of a run payload starts, tokens present and tokens lost are one plus the deep resubmissions logged, if and only if no replan request is handled that finds the guard of the token creation true and gets its token |
| `TokenTheorems.CreatesExactly` | org.glite.wms.core/src/submit_request.cpp:717-736 | the handling of a replan request comes to create a token if and only if the guard held when it began, whatever wrappers do in between |
| `TokenTheorems.RequestMakesTokenExactly` | org.glite.wms.core/src/submit_request.cpp:717-736 | one request handled in a state with the right account comes to create a token exactly when its count is not positive or exceeds the scanned number and no temporary token is there; then the account is one too many, otherwise it stays right |
| `TokenTheorems.RevivedExactly` | org.glite.wms.core/src/submit_request.cpp:717-736 | the tokens made outside a first submission and a deep resubmission are exactly those of such requests |
| `TokenTheorems.MadeOnlyByRequests` | org.glite.wms.core/src/submit_request.cpp:717-736 | at most one token for each replan request handled |
| `TokenTheorems.Conservation` | org.glite.wms.core/src/submit_request.cpp:675-752 | payload starts plus tokens present never exceed one plus the deep resubmissions logged plus the tokens made for replan requests; without the latter the account is exact |
| `TokenTheorems.OrderlyReplansConserve` | org.glite.wms.core/src/replanner.cpp:156-209 | requests make no token, so conservation has no exception, in every run in which nothing else is begun while a replan request waits and the next number is not in the field |
| `TokenTheorems.ReplanAfterStartRunsTwice` | org.glite.wms.core/src/submit_request.cpp:717-736 | a run in which one replan request makes a token and the payload starts twice although no deep resubmission is logged |
| `TokenTheorems.LoggedByTokenState` | org.glite.wms.core/src/submit_request.cpp:682-707 | as long as no request has made a token, a deep resubmission is logged only when every token was taken by a wrapper that started, and a shallow one only while the only token is set aside |
| `TokenTheorems.LimitAborts` | org.glite.wms.core/src/submit_request.cpp:682-713 | a handling that hits a limit has reached it, changes no file, and leaves no token a wrapper could take unless there is another token file; there is none as long as no request has made a token |
| `TokenTheorems.NumberNeverDecreases` | org.glite.wms.core/src/replanner.cpp:164-209 | between two deep resubmissions, as long as no request makes a token in between, the token number never decreases |
| `TokenTheorems.OnlyTheCurrentNumberStarts` | org.glite.wms.core/src/lb_utils.cpp:1031-1091 | as long as no request has made a token, only a wrapper with the number of the present token can start, and then no other one can |
| `TokenTheorems.StartsWithoutReplans` | org.glite.wms.core/src/submit_request.cpp:675-752 | without replan requests the payload starts at most 1 + max(0, min(job limit, system limit)) times, whatever the wrappers do in between |
| `TokenTheorems.EveryPrefixBounded` | org.glite.wms.core/src/submission_utils.cpp:122-168 | the bounds on the counts hold at every earlier moment of the log |
| `TokenTheorems.RetryBound` | org.glite.wms.core/src/submission_utils.cpp:122-168 | by occurrences in the log: at most D deep resubmissions, S shallow ones of the handler in any stretch without a deep one, D + (D + 1) * S in all, at every moment of every run |
| `TokenTheorems.FrozenUnlessReopened` | org.glite.wms.core/src/submit_request.cpp:715-752 | after such an abort a token appears again if and only if one of the replan requests waiting then reopens the job |
| `TokenTheorems.AbortIsFinal` | org.glite.wms.core/src/submit_request.cpp:682-713 | and where none does, no outstanding wrapper ever starts, nothing is logged, and every later resubmission hits a limit again |
| `TokenTheorems.StaleRequestDropped` | org.glite.wms.core/src/submit_request.cpp:717-729 | a replan request leaves no trace exactly when a token with a larger number is found and the request keeps its own count |
| `TokenTheorems.ReplanLimitDoesNotStop` | org.glite.wms.core/src/replanner.cpp:201-204 | at the limit of replans the job goes on as below it: the name that is unlinked was renamed before |
| `TokenOutcomes.ResubmissionOutcome` | org.glite.wms.core/src/submit_request.cpp:682-771 | what a resubmission leaves when nothing interferes, in files, log and counts: shallow with the same token if one is found, deep with a new one if none is, nothing but an abort at a limit |
| `TokenOutcomes.SubmissionOutcome` | org.glite.wms.core/src/submit_request.cpp:630-771 | a first submission leaves one wrapper and, unless shallow resubmissions are disabled, the token number 0 |
| `TokenOutcomes.ReplanOutcome` | org.glite.wms.core/src/replanner.cpp:156-252 | a replanning leaves the token with the next number, one shallow event and one request with that number |
| `TokenOutcomes.RequestOutcome` | org.glite.wms.core/src/submit_request.cpp:715-771 | a replan request is dropped, delivered with the token that is there, or delivered with a token that is set aside or new, by how its count compares with the number found |
| `TokenOutcomes.OneWrapperPerDelivery` | org.glite.wms.core/src/submit_request.cpp:766-771 | wrappers in the field and payloads started become one more by a delivery, one less when a wrapper ends, and nothing else changes them |
| `TokenOutcomes.WrappersWithoutTokens` | org.glite.wms.core/src/submit_request.cpp:682-771 | without shallow resubmissions there is never more than one wrapper, sent or started, for the first submission and each deep resubmission logged |
| `TokenOutcomes.DeliveredCanStart` | org.glite.wms.core/src/lb_utils.cpp:1031-1091 | a wrapper can start exactly if its token is published or it needs none, and starting takes just that token |
| `TokenOutcomes.RequestsAccounted` | org.glite.wms.core/src/submit_request.cpp:715-771 | the requests waiting or being handled change only when the replanner writes one, one is delivered, or one is dropped as stale |
| `TokenOutcomes.FaultEndsHandling` | org.glite.wms.core/src/submit_request.cpp:685-771 | a failing operation ends the handling and changes nothing, but that an unfinished request waits again with the count it then has |
| `TokenServer.JobServer.constructor` | org.glite.wms.core/src/submit_request.cpp:630-661 | a new job has no token, an empty log and no wrapper |
| `TokenServer.JobServer.WrapperMoves` | org.glite.wms.core/src/lb_utils.cpp:1031-1091 | a wrapper takes exactly the token with its number and starts, or ends without starting |
| `TokenServer.JobServer.WrappersMove` | org.glite.wms.core/src/lb_utils.cpp:1031-1091 | any wrappers may move between two operations; files only disappear, temporary ones never |
| `TokenServer.JobServer.Scan` | org.glite.wms.core/src/submit_request.cpp:640-661 | some token file of the directory, or none when there is none |
| `TokenServer.JobServer.SetTokenAside` | org.glite.wms.core/src/submit_request.cpp:685-692 | only an error other than ENOENT ends the handling |
| `TokenServer.JobServer.ChooseRetry` | org.glite.wms.core/src/submit_request.cpp:682-713 | the kind of the resubmission, or why the handling ends, with the limit that was reached |
| `TokenServer.JobServer.CarryOutRetry` | org.glite.wms.core/src/submit_request.cpp:694-713 | the event is logged, and a deep resubmission has its new token |
| `TokenServer.JobServer.ReadRetryState` | org.glite.wms.core/src/submit_request.cpp:222-222 | the counts are those of the whole log at that moment |
| `TokenServer.JobServer.PublishToken` | org.glite.wms.core/src/submit_request.cpp:738-751 | the temporary token gets its final name |
| `TokenServer.JobServer.DeliverToWrapper` | org.glite.wms.core/src/submit_request.cpp:766-771 | at most one wrapper more is in the field or has started, with the carried number, and none after a fault, when an unfinished request waits again |
| `TokenServer.JobServer.Resubmit` | org.glite.wms.core/src/submit_request.cpp:682-771 | a resubmission logs exactly one event below its limit and delivers to one wrapper, or logs nothing and reports a limit that was reached, never below both, or is repeated after a fault |
| `TokenServer.JobServer.SubmitScannedJob` | org.glite.wms.core/src/submit_request.cpp:715-771 | dropped exactly when the request carries a positive count below the scanned number |
| `TokenServer.JobServer.Submit` | org.glite.wms.core/src/submit_request.cpp:630-771 | a first submission delivers unless an operation fails |
| `TokenServer.JobServer.HandleReplanRequest` | org.glite.wms.core/src/submit_request.cpp:715-771 | a dropped request leaves everything but itself as it was, and is dropped exactly when it is stale; one that a fault leaves unfinished waits again with the count it then has |
| `TokenServer.JobServer.RenumberToken` | org.glite.wms.core/src/replanner.cpp:185-204 | the token is renamed to the next number; ENOENT means that the job is running |
| `TokenServer.JobServer.Replan` | org.glite.wms.core/src/replanner.cpp:100-252 | nothing is logged unless a token was found and renamed, which only a start, an empty directory or disabled shallow resubmissions prevent; then exactly one shallow event and one request with the next number |
| `DagEngine.LastDoneAt` | org.glite.wms.core/src/lb_utils.cpp:1488-1492 | the last done event is the one from the log monitor behind which there is no other |
| `DagEngine.ColoursMean` | org.glite.wms.core/src/submit_request.cpp:355-389 | white is SUBMITTED, green DONE with OK, red aborted or cancelled, gray any other status and DONE without OK |
| `DagEngine.IsLastDone` | org.glite.wms.core/src/lb_utils.cpp:1488-1492 | whether the last done event in the log has this code |
| `DagEngine.DagRequest.Recolour` | org.glite.wms.core/src/submit_request.cpp:340-393 | the colours of all vertices at the beginning of a pass, by their statuses and last done events |
| `DagEngine.DagRequest.ScanParents` | org.glite.wms.core/src/submit_request.cpp:423-473 | red exactly if some parent is red, green exactly if all are green |
| `DagEngine.ParentsSeen` | org.glite.wms.core/src/submit_request.cpp:424-473 | although colours change during the walk, a vertex sees a red parent exactly if one was red before or has been felled, and only green ones exactly if all were green before |
| `DagEngine.DagRequest.Visit` | org.glite.wms.core/src/submit_request.cpp:395-491 | what happens to one vertex depends only on the colours before the pass and the order of the walk |
| `DagEngine.DagRequest.Walk` | org.glite.wms.core/src/submit_request.cpp:394-492 | the walk queues exactly the nodes that can start and aborts exactly those that must fall |
| `DagEngine.DagRequest.Judge` | org.glite.wms.core/src/submit_request.cpp:502-508 | all vertices green |
| `DagEngine.DagRequest.Pass` | org.glite.wms.core/src/submit_request.cpp:340-514 | the whole effect of a pass on the nodes, the sets of queued and aborted ones, the verdict and the next pass |
| `DagEngine.PassInStatuses` | org.glite.wms.core/src/submit_request.cpp:394-492 | in statuses: a pass changes exactly the SUBMITTED nodes whose parents are all DONE with OK, to queued, and those with a parent that is aborted or cancelled, or was aborted earlier in the pass, to aborted |
| `DagEngine.VerdictInStatuses` | org.glite.wms.core/src/submit_request.cpp:493-514 | a verdict exactly when all nodes are DONE with OK, aborted or cancelled, success exactly when all are DONE with OK, another pass otherwise |
| `DagTheorems.PassKeepsInv` | org.glite.wms.core/src/submit_request.cpp:340-514 | a pass keeps the invariant of the engine |
| `DagTheorems.ChangeKeepsInv` | org.glite.wms.core/src/submit_request.cpp:340-393 | so does everything that may happen to a node |
| `DagTheorems.QueuedAncestorsDone` | org.glite.wms.core/src/submit_request.cpp:340-492 | at every moment of every run all ancestors of a queued node have been queued and are DONE with a last done event OK |
| `DagTheorems.FailurePropagates` | org.glite.wms.core/src/submit_request.cpp:424-467 | below an aborted or cancelled node nothing is ever queued, and at the verdict all is aborted or cancelled |
| `DagTheorems.FelledHasRootCause` | org.glite.wms.core/src/submit_request.cpp:424-467 | the engine aborts a node only if some ancestor failed of its own |
| `DagTheorems.VerdictMeans` | org.glite.wms.core/src/submit_request.cpp:493-514 | at the verdict every node is DONE with OK, aborted or cancelled, success is logged exactly when all are DONE with OK, and a node never queued has a parent that failed or was cancelled from outside |
| `DagTheorems.VerdictIsLast` | org.glite.wms.core/src/submit_request.cpp:494-514 | a pass that ends with a verdict schedules no other one, and nothing happens after it |
| `DagTheorems.PassMakesProgress` | org.glite.wms.core/src/submit_request.cpp:395-492 | in an acyclic graph with nothing in flight a pass queues or aborts a node that was not started, whatever the order of the vertices |
| `DagTheorems.WorkIsBounded` | org.glite.wms.core/src/submit_request.cpp:394-501 | twice the nodes not started plus those in flight bounds the completions of a run, and its passes but for those that find a node in flight |
| `DagTheorems.VerdictWithin` | org.glite.wms.core/src/submit_request.cpp:394-514 | if at most p passes find a node in flight for each node that ends, and p more, a run over an acyclic graph of n nodes has its verdict after 2n + p(2n + 1) passes |
| `DagTheorems.FairRunsReachVerdict` | org.glite.wms.core/src/submit_request.cpp:394-514 | every run for ever over an acyclic graph, in which there is always another pass and no node stays in flight for ever, reaches its verdict |
| `EventQueue.Events.Schedule` | org.glite.wms.core/src/events.cpp:129-144 | insertion behind all events with an equal or smaller key |
| `EventQueue.Events.ScheduleAt` | org.glite.wms.core/src/events.cpp:146-162 | insertion before all events of the same time, which is what the comparison by <= does |
| `EventQueue.Events.ExpiredToReady` | org.glite.wms.core/src/events.cpp:83-94 | moves exactly the events whose time has come, in their order |
| `EventQueue.Events.Enter` | org.glite.wms.core/src/events.cpp:166-194 | what a worker does from the top of its loop to the next release of the lock |
| `EventQueue.Events.Wake` | org.glite.wms.core/src/events.cpp:183-200 | and from the end of a timed wait |
| `EventQueue.Events.Choose` | org.glite.wms.core/src/events.cpp:183-200 | stopped: leaves; otherwise the first ready event if there is one, and a wait for the first waiting one only if there is none |
| `EventQueue.InsertReadySorted` | org.glite.wms.core/src/events.cpp:60-67 | insertion keeps the order by (priority, time) |
| `EventQueue.ExpireKeeps` | org.glite.wms.core/src/events.cpp:83-94 | moving expired events keeps both orders and every event, and separates them exactly at the present time |
| `EventQueue.TurnKeeps` | org.glite.wms.core/src/events.cpp:164-200 | a turn at the lock loses and invents nothing, keeps the orders, and takes nothing early or after a stop |
| `EventQueue.TurnTakesMinimal` | org.glite.wms.core/src/events.cpp:183-200 | a turn takes an event with the smallest number of priority, and of those with the earliest time, among all ready and expired ones |
| `EventQueue.TurnDecides` | org.glite.wms.core/src/events.cpp:164-200 | a turn takes an event exactly when one is ready or due and there is no stop, waits for the earliest time exactly when only later ones are waiting, and waits for work exactly when both queues are empty |
| `EventQueue.TurnUndefined` | org.glite.wms.core/src/events.cpp:183-187 | when the code evaluates begin() of an empty queue |
| `EventQueue.PositionAfterInsert` | org.glite.wms.core/src/events.cpp:60-67 | an insertion moves an event back only if the new key is strictly smaller |
| `EventQueue.PositionAfterTurn` | org.glite.wms.core/src/events.cpp:164-200 | the position of a ready event after a turn |
| `Workers.StepKeepsInv` | org.glite.wms.core/src/events.cpp:129-225 | every step of producers, clock, stop and any number of workers keeps the queues safe |
| `Workers.NothingLostNothingTwice` | org.glite.wms.core/src/events.cpp:129-200 | scheduled equals ready plus waiting plus taken; nothing is taken twice or before its time |
| `Workers.TakesWhenDue` | org.glite.wms.core/src/events.cpp:164-200 | in every run a turn of a worker that is not busy takes an event if and only if one is ready or due and there is no stop |
| `Workers.TakenIsMinimal` | org.glite.wms.core/src/events.cpp:164-200 | every event taken in a run has the smallest number of priority, and of those the earliest time, among all that were ready or due |
| `Workers.NothingTakenAfterStop` | org.glite.wms.core/src/events.cpp:164-225 | after a stop nothing is taken |
| `Workers.FaultExactly` | org.glite.wms.core/src/events.cpp:183-187 | the unguarded begin() of an empty queue is evaluated exactly by a worker that wakes from a timed wait to two empty queues |
| `Workers.SingleWorkerNeverFaults` | org.glite.wms.core/src/events.cpp:183-187 | with one worker this never happens |
| `Workers.ManyWorkersFault` | org.glite.wms.core/src/events.cpp:183-187 | for every number of workers from two on, a run in which it does |
| `Workers.FaultReachableExactly` | org.glite.wms.core/src/events.cpp:183-187 | a run in which it happens exists exactly for two workers or more |
| `Workers.PositionInRun` | org.glite.wms.core/src/events.cpp:164-200 | a ready event is always its initial position plus the strictly smaller insertions minus the takes from the front |
| `Workers.BoundedBypass` | org.glite.wms.core/src/events.cpp:164-200 | it is taken after exactly its initial position plus the number of strictly smaller insertions |
| `Distribution.PrefixIncreases` | org.glite.wms.core/src/bulkmm_utils.cpp:311-311 | prefix sums of positive weights strictly increase |
| `Distribution.PartialSum` | org.glite.wms.core/src/bulkmm_utils.cpp:311-311 | the array holds the prefix sums of what it held before |
| `Distribution.LowerBound` | org.glite.wms.core/src/bulkmm_utils.cpp:341-343 | the first element not below p |
| `Distribution.SelectDestination` | org.glite.wms.core/src/bulkmm_utils.cpp:334-350 | a random share of the total always selects a weight, the one whose prefix sums enclose it |
| `Distribution.ScanCumulative` | org.glite.wms.core/src/match_utils.cpp:148-159 | the first weight whose running sum exceeds p, and the end exactly if there is none |
| `Distribution.BoundInterval` | org.glite.wms.core/src/bulkmm_utils.cpp:340-343 | the search selects weight i exactly on an interval as long as the weight |
| `Distribution.ScanInterval` | org.glite.wms.core/src/match_utils.cpp:148-159 | so does the scan, on the interval closed at the other end |
| `Distribution.BoundAgreesWithScan` | org.glite.wms.core/src/bulkmm_utils.cpp:340-343 | the two agree exactly when p is not itself a prefix sum, and then differ by one |
| `Distribution.ShareOfTotal` | org.glite.wms.core/src/bulkmm_utils.cpp:340-343 | the share u of the total falls on the weight that is chosen, for the search and for the scan |
| `Ranking.MaxElement` | org.glite.wms.core/src/bulkmm_utils.cpp:267-272 | a match of maximum rank |
| `Ranking.Partition` | org.glite.wms.core/src/bulkmm_utils.cpp:273-277 | in place: the multiset is kept, and exactly the matches of the given rank come first |
| `Ranking.MaxPartition` | org.glite.wms.core/src/bulkmm_utils.cpp:263-278 | exactly the matches of maximum rank come first |
| `Ranking.MakeDistribution` | org.glite.wms.core/src/bulkmm_utils.cpp:280-314 | the prefix sums of the smoothed weights |
| `Ranking.HigherRankWeighsMore` | org.glite.wms.core/src/bulkmm_utils.cpp:304-310 | a match weighs more than another exactly if its rank is higher, whatever increasing function smooths and whatever the positive factor |
| `Ranking.Deviation` | org.glite.wms.core/src/match_utils.cpp:126-134 | the divisor is never zero |
| `Ranking.DeviationOfEqualRanks` | org.glite.wms.core/src/match_utils.cpp:126-134 | the constant is the divisor exactly when all ranks are equal, and the root of the variance otherwise |
| `Ranking.SmoothRanks` | org.glite.wms.core/src/match_utils.cpp:136-140 | in place: the smoothed weights, and their sum |
| `Ranking.SelectBestStochastic` | org.glite.wms.core/src/match_utils.cpp:111-160 | always finds a match, the one on whose share of the total the random number falls |
| `Ranking.SelectBestMaxRank` | org.glite.wms.core/src/match_utils.cpp:81-102 | draws from the block of matches before the first one ranked below the head |
| `Ranking.MaxRankChosenExactly` | org.glite.wms.core/src/match_utils.cpp:81-102 | every draw gives a match of maximum rank if and only if the head of the list has it |
| `BulkMatch.ListedExactly` | org.glite.wms.core/src/bulkmm_utils.cpp:127-150 | the list of significant attributes in force is the first there is of the job, the shared description and the collection |
| `BulkMatch.MakeKey` | org.glite.wms.core/src/bulkmm_utils.cpp:153-210 | exactly the listed attributes that are given, each with the expression of the first of job, shared description and collection to define it, or the name of the node if there is none |
| `BulkMatch.DifferentExpressionsDifferentKeys` | org.glite.wms.core/src/bulkmm_utils.cpp:191-199 | nodes that give a significant attribute different expressions never share a key |
| `BulkMatch.SharedKeyExactly` | org.glite.wms.core/src/bulkmm_utils.cpp:153-210 | two nodes with one list share a key exactly when every listed attribute is given alike for both and at least one is given |
| `BulkMatch.SameKeyExactly` | org.glite.wms.core/src/bulkmm_utils.cpp:176-210 | two nodes share a key exactly when they have the same significant values and at least one; a node without any is alone |
| `BulkMatch.Clusterize` | org.glite.wms.core/src/bulkmm_utils.cpp:455-467 | the clusters partition the nodes by key, each with its nodes in order and the description of the first one |
| `BulkMatch.FirstAdIs` | org.glite.wms.core/src/bulkmm_utils.cpp:455-467 | the description of a cluster is that of the first node with its key |
| `BulkMatch.NamesInOrder` | org.glite.wms.core/src/bulkmm_utils.cpp:455-467 | the names of a cluster stand in the order of the nodes |
| `BulkMatch.PrepareChoice` | org.glite.wms.core/src/bulkmm_utils.cpp:500-536 | the distribution the nodes of a cluster draw from: all matches by their smoothed weights, or exactly those of maximum rank with equal weights |
| `BulkMatch.EvenlyDrawn` | org.glite.wms.core/src/bulkmm_utils.cpp:521-535 | without fuzzy rank each of the n matches of maximum rank has one n-th of the random numbers |
| `BulkMatch.ChooseAll` | org.glite.wms.core/src/bulkmm_utils.cpp:507-535 | every node gets the match on whose weight its random number falls |
| `BulkMatch.Schedule` | org.glite.wms.core/src/bulkmm_utils.cpp:482-575 | all nodes of a cluster are scheduled, in order, each where its random number falls in one order of the matches, or all are pending |
| `BulkMatch.DoBulkMM` | org.glite.wms.core/src/bulkmm_utils.cpp:579-603 | every node ends exactly once as scheduled or pending, pending exactly when its cluster has no match, and nothing else is pending |
| `BulkMatch.ScheduledAtMaximumRank` | org.glite.wms.core/src/bulkmm_utils.cpp:516-536 | without fuzzy rank every scheduled node goes to a resource of the maximum rank in its cluster |
| `BrokerLists.MatchBracket` | org.glite.wms.brokerinfo-access/src/BrokerInfo.C:167-187 | finds the bracket that closes a record with any nesting inside, and the next opening one |
| `BrokerLists.RecordsArePrinted` | org.glite.wms.brokerinfo-access/src/BrokerInfo.C:153-192 | records nested to any depth, with texts without brackets around them, make a printed list |
| `BrokerLists.PrettyCAdList` | org.glite.wms.brokerinfo-access/src/BrokerInfo.C:153-192 | terminates on every text, and on a printed list of balanced records returns these in order, but for the last one exactly if the text ends with it |
| `BrokerLists.SplitRecords` | org.glite.wms.brokerinfo-access/src/BrokerInfo.C:153-192 | the same for all lists of records nested to any depth |
| `BrokerLists.PrettyStrList` | org.glite.wms.brokerinfo-access/src/BrokerInfo.C:124-151 | terminates on every text, inverts the printing of every non-empty list of strings without quotes, commas and braces, and reads the empty list as one empty string |
| `BrokerLists.FirstPair` | org.glite.wms.brokerinfo-access/src/BrokerInfo.C:168-176 | the closing and the opening bracket first found pair up |
| `BrokerLists.NextPair` | org.glite.wms.brokerinfo-access/src/BrokerInfo.C:177-186 | as many brackets open before the one pointer as close up to the other, whatever the nesting |
| `BrokerLists.StringOfItem` | org.glite.wms.brokerinfo-access/src/BrokerInfo.C:141-147 | the text between the first two quotes |
| `ThreadWindow.AtMostWidth` | org.glite.wms-ui.api-cpp/src/JobCollection.cpp:229-241 | at no time more threads than slots |
| `ThreadWindow.ScheduleIsLegal` | org.glite.wms-ui.api-cpp/src/JobCollection.cpp:276-326 | no slot is written over before its thread is joined, and a joined thread finds its own parameters |
| `ThreadWindow.BlockLasts` | org.glite.wms-ui.api-cpp/src/JobCollection.cpp:281-291 | the parameter block of a job stays until the window has moved past it |
| `ThreadWindow.CountersMeet` | org.glite.wms-ui.api-cpp/src/JobCollection.cpp:300-322 | comparing the two counters modulo the number of threads tells full and empty apart |
| `ThreadWindow.ParamsTold` | org.glite.wms-ui.api-cpp/src/JobCollection.cpp:288-291 | each job is told the address behind that of the job before it, round robin from the position of the launch |
| `ThreadWindow.ScheduleWaitsForNone` | org.glite.wms-ui.api-cpp/src/JobCollection.cpp:300-313 | no thread is waited for unless all slots are taken or all jobs have been launched |
| `ThreadWindow.JobCollection.MaxThreads` | org.glite.wms-ui.api-cpp/interface/glite/wmsui/api/JobCollection.h:201-204 | the number that was set if it is positive; always at least one thread |
| `ThreadWindow.JobCollection.NextParams` | org.glite.wms-ui.api-cpp/src/JobCollection.cpp:288-291 | the next job gets the next LB address, round robin |
| `ThreadWindow.JobCollection.Retrieve` | org.glite.wms-ui.api-cpp/src/JobCollection.cpp:303-312 | the result of the oldest thread is stored under its job |
| `ThreadWindow.JobCollection.LaunchNext` | org.glite.wms-ui.api-cpp/src/JobCollection.cpp:281-313 | one job launched, and one joined exactly when all slots are taken |
| `ThreadWindow.JobCollection.Drain` | org.glite.wms-ui.api-cpp/src/JobCollection.cpp:322-327 | all threads still running are joined |
| `ThreadWindow.JobCollection.Launch` | org.glite.wms-ui.api-cpp/src/JobCollection.cpp:222-333 | for every collection that is not empty, each job is launched once, told the address that is its turn, and its result stored exactly once, with min(number set or 10, size) slots |
| `ThreadWindow.UsesExactly` | org.glite.wms-ui.api-cpp/src/JobCollection.cpp:289-291 | how often each LB address is used |
| `ThreadWindow.EvenlyUsed` | org.glite.wms-ui.api-cpp/src/JobCollection.cpp:289-291 | any two LB addresses are used equally often, give or take one |
| `ThreadWindow.ToldEvenly` | org.glite.wms-ui.api-cpp/src/JobCollection.cpp:289-291 | so any two LB addresses are told to equally many threads, give or take one |
| `Dom.Element.Add` | org.glite.wms.wmproxy-api-cpp/src/dom.cpp:704-714 | adding an element with all below it behind the last child keeps the whole document linked and its elements distinct |
| `Dom.GraftOrder` | org.glite.wms.wmproxy-api-cpp/src/dom.cpp:704-714 | in document order the addition comes right behind the parent and all that was below it |
| `Dom.NextElement` | org.glite.wms.wmproxy-api-cpp/src/dom.cpp:553-563 | the next element in document order, or none after the last, from any place in a document |
| `Dom.Walk` | org.glite.wms.wmproxy-api-cpp/src/dom.cpp:553-563 | from the root every element is visited in document order, and then the walk ends |
| `Dom.PreorderFollows` | org.glite.wms.wmproxy-api-cpp/src/dom.cpp:553-563 | an element is followed by its first child, one without children by its next sibling |
| `Dom.PreorderIsDistinct` | org.glite.wms.wmproxy-api-cpp/src/dom.cpp:553-563 | no element is visited twice |
| `Dom.PreorderIsComplete` | org.glite.wms.wmproxy-api-cpp/src/dom.cpp:553-563 | none is left out |
| `Dom.ElementIterator.Next` | org.glite.wms.wmproxy-api-cpp/src/dom.cpp:924-947 | the next element that matches, or the end, skipping only elements that do not match |
| `Dom.FindAll` | org.glite.wms.wmproxy-api-cpp/src/dom.cpp:757-776 | find and then ++ to the end yield the element itself if it passes the first test, then exactly the matching elements in document order |
| `Dom.Find` | org.glite.wms.wmproxy-api-cpp/src/dom.cpp:757-776 | the element itself if it passes the first test, the next that matches otherwise; by tag or by type |
| `Dom.MatchesMeans` | org.glite.wms.wmproxy-api-cpp/src/dom.cpp:924-947 | what ++ asks of an element, by names, namespaces and types |
| `Dom.BeginsMeans` | org.glite.wms.wmproxy-api-cpp/src/dom.cpp:757-776 | what find asks of the first one |
| `Dom.FilterParts` | org.glite.wms.wmproxy-api-cpp/src/dom.cpp:924-947 | what ++ finds in a list and another behind it is what it finds in each |
| `Dom.FoundByName` | org.glite.wms.wmproxy-api-cpp/src/dom.cpp:757-776 | a search by name through named elements finds exactly those with the name, and with the namespace if both have one |
| `Dom.FindsWhatMatches` | org.glite.wms.wmproxy-api-cpp/src/dom.cpp:757-776 | with a name given and all elements named, or with a type, this is exactly the matching elements |
| `Dom.FindsAllTheRest` | org.glite.wms.wmproxy-api-cpp/src/dom.cpp:929-944 | without a name, or with type zero, every later element is found whatever the namespace, and the first one only if it passes the first test |
| `Dom.AddBelow` | org.glite.wms.wmproxy-api-cpp/src/dom.cpp:704-714 | adding a fresh element below any element of a document gives a document with just that element more |
| `Dom.Build` | org.glite.wms.wmproxy-api-cpp/src/dom.cpp:704-714 | any sequence of such adds below a fresh root gives a document of all the elements |
| `Dom.WalkIsComplete` | org.glite.wms.wmproxy-api-cpp/src/dom.cpp:553-563 | the document order of a document holds each of its elements once |
| `Dom.BuildAndWalk` | org.glite.wms.wmproxy-api-cpp/src/dom.cpp:553-563 | however a document has been built, the walk visits every element added, and each once |
| `Base64.ThreeBytes` | org.glite.wms.wmproxy-api-cpp/examples/glite-wmp-job-utilities.cpp:229-256 | every three bytes become four groups that are the same number |
| `Base64.LastBytes` | org.glite.wms.wmproxy-api-cpp/examples/glite-wmp-job-utilities.cpp:229-256 | one or two bytes at the end become two or three groups, with zeros behind the last bit |
| `Base64.SameBits` | org.glite.wms.wmproxy-api-cpp/examples/glite-wmp-job-utilities.cpp:229-256 | the four groups of a quantum are the bits of its three bytes |
| `Base64.Sextets` | org.glite.wms.wmproxy-api-cpp/examples/glite-wmp-job-utilities.cpp:229-256 | ceil(8n/6) groups |
| `Base64.BytesOfSextets` | org.glite.wms.wmproxy-api-cpp/examples/glite-wmp-job-utilities.cpp:229-256 | the groups determine the bytes |
| `Base64.EncodedIs` | org.glite.wms.wmproxy-api-cpp/examples/glite-wmp-job-utilities.cpp:222-263 | the letters of the groups, by ranges, and one = at the end |
| `Base64.DecodedOfEncoded` | org.glite.wms.wmproxy-api-cpp/examples/glite-wmp-job-utilities.cpp:227-263 | the encoding has a left inverse |
| `Base64.Injective` | org.glite.wms.wmproxy-api-cpp/examples/glite-wmp-job-utilities.cpp:227-263 | different inputs are encoded differently |
| `Base64.LastBits` | org.glite.wms.wmproxy-api-cpp/examples/glite-wmp-job-utilities.cpp:235-239 | the bits lost from the 32-bit accumulator are never those still to be encoded |
| `Base64.Flush` | org.glite.wms.wmproxy-api-cpp/examples/glite-wmp-job-utilities.cpp:243-246 | the last bits are filled up with zeros |
| `Base64.StreamIsSextets` | org.glite.wms.wmproxy-api-cpp/examples/glite-wmp-job-utilities.cpp:234-258 | encoding byte by byte gives the groups of three bytes |
| `Base64.EmitSegments` | org.glite.wms.wmproxy-api-cpp/examples/glite-wmp-job-utilities.cpp:253-258 | the inner loop writes the complete groups the accumulator holds |
| `Base64.Base64Encode` | org.glite.wms.wmproxy-api-cpp/examples/glite-wmp-job-utilities.cpp:227-263 | writes the groups in the url-safe alphabet and one =, and returns ceil(8n/6) + 1 exactly when that fits, otherwise -1 |

## Left out

- The logging service, the job description library, SOAP, proxies and X509: a status or an event list is a value, a log call appends and succeeds.
- jdl::set_replans_count is not part of this model: whether it replaces an existing count is the parameter `overwrites`, and every theorem holds for both.
- The abort logged when two tokens are found, the cancel token, the expiry of proxies and requests, and recovery.
- One handling of a job at a time, a jobsubmit run again only before its first delivery: assumed, as the request queue arranges it.
- The abort logged at the limit of replans: only the token and the request that follow it are modelled, because the code goes on.
- The replanner's filters on the feedback flag, the kind of computing element and the time in the scheduled state: any job delivered and not aborted may be replanned.
- Token numbers pass through a float in the code: numbers beyond its precision are not modelled.
- A pass over a DAG assumes that status queries succeed and that queueing a node does not throw; a transient query failure (submit_request.cpp, lines 374 to 384) falls through with a colour left over.
- A queued DAG node has left SUBMITTED before the next pass, and a node that is DONE with OK stays so.
- Collections and other job types of the request processor, which have no engine of their own here.
- The worker's outer loop never ends: it is modelled turn by turn, a turn being what happens between two acquisitions of the lock. Notification is not modelled; a waiting worker may wake at any time.
- The function an event runs, and the stop after a bad_alloc exception inside it.
- Floating point rounding: ranks and weights are reals, atan shifted by a constant is any positive function, sqrt any that is positive on positive numbers, a random number any value in [0, 1).
- The order of the map of clusters: they are scheduled in any order.
- The matchmaker's query: its answer for a cluster is a parameter. A list of matches with its best one first is assumed nowhere; `MaxRankChosenExactly` says what depends on it.
- The brackets inside quoted strings of a record, which the list splitter does not recognise as quoted.
- The variant of launch that is compiled: WITHOUT_THREAD selects the threaded code, which is modelled; the threaded branch does not declare the structure that line 252 of JobCollection.cpp uses, so that extra submission is not part of the model.
- Failures of pthread_join, which throw; a thread reads its parameters no later than it is joined.
- The attributes of DOM elements, the output and input of documents, and the tag comparison of the runtime, which is a parameter.
- TokenServer.JobServer.RenumberToken: decides on the result of the renaming; the code looks at errno even when the renaming succeeded, where it may be stale.
- TokenTheorems.Conservation: counts token numbers rather than files once a replan request has made a token, because a temporary and a final file with one number are then one token.
- TokenTheorems.OrderlyReplansConserve: one sufficient discipline only; the exact condition on runs is ConservedExactly.
- Base64.Base64Encode: needs room for one character more than the limit, which the code may write before it returns -1.
- The MD5 digest that is encoded; bytes after a failed encoding.
- The user interfaces, the purger, ICE, and everything else of the repository: argument parsing, tables and calls to other services.
