# Verified model of the ECN client and its release tooling

A Dafny model of the parts of this repository whose correctness is hard to see from one body, with proofs of what
they promise. `dafny verify dfyconfig.toml` checks everything. One module per file:

| module | models |
|---|---|
| `EventStreams` | the bounded event stream: two full-queue policies and a close protocol in which the first terminal action decides |
| `TrackIngress`, `TrackService` | the latest-TRACK ingress of the entity service: the steps as functions with every interleaving of them, and the service object whose methods perform the steps on its fields |
| `TrackAccounts` | the accounts of that ingress: what becomes of every message for every watcher that it concerns |
| `TrackDelivery` | ingress and streams together: what the reader of a watcher's stream sees |
| `WatchLifecycle` | the subscriptions behind a watch, acquired across awaits, and released by the watch, its stream or the service |
| `StageGraph`, `StageRun`, `StagePermits` | the stage runner: validation of the graph, the thread-pool scheduler, and the permits that nested runs lend |
| `Geodesy` | WGS-84 geodetic and Earth-centred coordinates, and the rotations of velocities |
| `MarkupScanner` | the incremental markup scanner and the grouping of physical lines |
| `PolicyArray` | the locator and rewriter of one JSON array inside a text |
| `DecodeWorklist` | the decoded forms of a publication text |
| `StaticLiteral` | the bounded evaluator of constant expressions |
| `ConnectBudget` | one time budget shared by several connection attempts |

## How the model is built

- **asyncio** code runs without interruption between awaits, so each such segment is one step, and a run is any
  sequence of steps that are enabled when they happen. Objects whose methods update fields are classes; every method
  is proved equal to its step on the object's fields, and what the source promises is proved of all runs of the steps.
- **Threads** of the stage scheduler act between any two things that the scheduling thread reads: the worker pool
  advances by an arbitrary number of worker actions before each of them, and the contracts speak of the trace of
  everything that happened. The permit protocol is a machine of threads with call stacks.
- **Real numbers** replace floating point. An angle is the vector of its cosine and sine; `atan2` normalises a vector
  and doubling an angle is the double-angle formula. Of square and cube roots only the defining equations are used.
- **Parameters** stand for code outside the model: topic parsing, identity extraction and payload decoding (a
  `Codec`), the answers of the transport and of the network, the decoders of HTML and percent escapes, the
  floating-point operations of the constant evaluator, and the character classes of regular expressions.

What is assumed of the parameters: the extractor and the decoder agree on the identity of a payload
(`Codec.Agrees`; an accepted payload is no longer than `maximumPayload`, because the extractor refuses longer ones
first); the default buffer size is at least 1, as the configuration demands; an unsubscribe call that fails does so
with an error of the client's own hierarchy, and stage bodies and transport calls end; an HTML unescape that changes a text
shortens it; a space is not a word character; white space includes blanks and line breaks but no quote, backslash,
colon, comma or bracket; an attempt ends within the window it is granted.

## Results that the source's own words do not have

- `MarkupScanner`: the comment at `scripts/license_policy.py:654-657` says that a kind remembered as never closing
  cannot be closed by a later line. The memory is keyed by the state at the end of the file, which a construct opened
  much later may have left. `MemoryPassesOver` gives four lines in which a comment that closes on the next line is
  passed over. `MemoryHarmlessIff` is the exact condition, both ways, on the lines and their grouping without any
  memory: the memory only saves work if and only if no remembered line (one that starts a group, whose scan never
  closes, and which leaves no state remembered before) ended in the very state that the line of a later group leaves,
  though what that line opens is closed. `MemoryHarmlessOnLines` is a simpler condition on all pairs of lines, which
  is sufficient only: a never-closing line inside a group, or one that is itself passed over, remembers nothing.
- `Geodesy`: the forward image of a position that the inverse accepts comes back exactly when its altitude is above
  `-(1 - e2) * n`, with `n` the prime vertical radius; `GeodeticRoundTrip` shows that acceptance and recovery are both
  certain above `-(1 - 2 * e2) * a`. `BelowTheBound` gives an accepted position below the bound, three prime verticals
  below a pole, that comes back as another one.
- `PolicyArray`: a key that contains an opening bracket would be searched for its array inside itself; `BracketInKey`
  gives a text. `PromiseIff` is the exact condition: the replacement finds the array again as it wrote it, for every
  text and every list, if and only if the key contains no such bracket; so does the search find the bracket of the
  header (`StartIff`). The keys of the source contain none.
- `WatchLifecycle`: an entity watch is listed before its filters are built, outside the guarded part
  (`src/picogrid_ecn_client/_entity_locations.py:180-182`), so a watch whose filters cannot be built stays listed until
  the service closes (`RefusedWatchStaysListed`). It holds no handle, so nothing leaks. `SettledListedIff` is the exact
  condition: while the service is open, a watch at rest is listed if and only if it is returned with its stream open,
  or it is such a watch.

## Model

| member | source | states |
|---|---|---|
| EventStreams.OpenStream | src/picogrid_ecn_client/streams.py:49-61 | a stream exists exactly for a buffer of at least one event, and starts open and empty |
| EventStreams.EventStream.constructor | src/picogrid_ecn_client/streams.py:35-61 | the fields of a new stream |
| EventStreams.EventStream.PutNowait | src/picogrid_ecn_client/streams.py:107-120 | the whole new state of an offer, and that it is accepted unless closed or full under FIFO |
| EventStreams.EventStream.RecordDecodeError | src/picogrid_ecn_client/streams.py:122-126 | counts while open, and changes nothing else |
| EventStreams.EventStream.Fail | src/picogrid_ecn_client/streams.py:128-148 | closes with an error and discards the queue, unless a terminal action came first |
| EventStreams.EventStream.Close | src/picogrid_ecn_client/streams.py:150-174 | closes and schedules the close task once |
| EventStreams.EventStream.ReplaceQueue | src/picogrid_ecn_client/streams.py:193-198 | the queue becomes the one marker |
| EventStreams.EventStream.EnterCallback | src/picogrid_ecn_client/streams.py:181-186 | the close task runs the callback, if there is one |
| EventStreams.EventStream.LeaveCallback | src/picogrid_ecn_client/streams.py:187-191 | however the callback ends, the outcome of the stream is left as the one queued marker |
| EventStreams.EventStream.Next | src/picogrid_ecn_client/streams.py:94-105 | what a read returns, raises or waits for, and the state it leaves |
| EventStreams.EveryRun | src/picogrid_ecn_client/streams.py:94-198 | over every interleaving of offers, failures, closes, close-task steps and one reader, each offered event is consumed, queued, dropped or discarded exactly once, in offer order, and the close protocol is in order |
| EventStreams.OpenStreamDelivers | src/picogrid_ecn_client/streams.py:107-120 | until the stream fails or its close task ends, received events followed by queued ones are exactly the offered events that were not dropped, in order; offered = received + queued + dropped; the queue is within its bound; closing alone takes nothing from the reader |
| EventStreams.OfferLosesOne | src/picogrid_ecn_client/streams.py:107-120 | in every run an offer to an open stream loses something only when as many events as its buffer holds are neither received nor dropped: under FIFO the offered one, under LATEST the oldest; it is accepted exactly when it is not the lost one; a closed stream takes nothing |
| EventStreams.ReadGivesOldest | src/picogrid_ecn_client/streams.py:94-105 | until the stream fails or its close task ends, a read gives the oldest event neither received nor dropped; without one it waits, or ends iteration if the stream is closed |
| EventStreams.LatestIsSuffix | src/picogrid_ecn_client/streams.py:115-120 | under LATEST the queue is the contiguous end of the offered events, until the stream fails or its close task ends |
| EventStreams.FirstTerminalActionWins | src/picogrid_ecn_client/streams.py:128-174 | the first terminal action alone fixes the outcome of every later read, and nothing is accepted or dropped after it |
| EventStreams.ClosedStaysFrozen | src/picogrid_ecn_client/streams.py:107-191 | after close has begun offers, drops and decode errors change nothing, and after the close task nothing is received |
| EventStreams.CallbackRunsOnce | src/picogrid_ecn_client/streams.py:136-191 | the close callback runs at most once, and has run exactly once when the close task is done |
| EventStreams.CallbackErrorReported | src/picogrid_ecn_client/streams.py:128-191 | in every run the close task ends at most once, and what it ended with is from then on the error of the close callback, or none |
| EventStreams.FailureIsPrompt | src/picogrid_ecn_client/streams.py:128-148 | from a failure on the next read raises it and a waiting reader can be resumed, though the close callback may not have started |
| EventStreams.FinishedReaderEnds | src/picogrid_ecn_client/streams.py:94-105 | once the close task has finished the reader never gets an event and never blocks, even if it was already waiting |
| TrackIngress.EveryRun | src/picogrid_ecn_client/_entity_locations.py:408-632 | in every run of arrivals, drain-task resumptions, watches, detachments and shutdown, the index is ordered, bounded and exactly accounted for, has a live drain task while it is not empty, and is ahead of everything delivered |
| TrackIngress.IndexAccounting | src/picogrid_ecn_client/_entity_locations.py:504-515 | the byte count is the sum of the pending lengths, both limits hold, entries are in receipt order with distinct identities, and admitted = pending + drained + coalesced + evicted + released |
| TrackIngress.TracksNeverRegress | src/picogrid_ecn_client/_entity_locations.py:474-603 | for each watcher and identity TRACK events are delivered in strictly increasing receipt order, though messages switch between the queued and the direct path |
| TrackIngress.PendingIsServed | src/picogrid_ecn_client/_entity_locations.py:516-556 | while something is pending the service is open, its drain task is alive and not cancelled, is the only such task, and takes the oldest value when it next runs |
| TrackIngress.AdmissionEvictsFewest | src/picogrid_ecn_client/_entity_locations.py:504-515 | an admission evicts the fewest oldest values that make both limits hold, and never the new one |
| TrackIngress.TrimmedIsLongest | src/picogrid_ecn_client/_entity_locations.py:509-515 | eviction stops at the longest run of newest entries within the limits |
| TrackIngress.ByteLimitIs | src/picogrid_ecn_client/_entity_locations.py:122-126 | the byte limit is the buffer size times the largest payload, up to 16 MiB, and never less than one payload |
| TrackIngress.DetachedMembers | src/picogrid_ecn_client/_entity_locations.py:614-623 | detaching keeps exactly the entries that another watcher shares, without the watcher |
| TrackIngress.DetachedPlaces | src/picogrid_ecn_client/_entity_locations.py:614-623 | the entries kept come from increasing places of the index before |
| TrackIngress.DetachedForGood | src/picogrid_ecn_client/_entity_locations.py:605-626 | after a detachment no pending value names the watcher and nothing later reaches its stream, while shared values keep their payload and their order |
| TrackIngress.GoneHearsNothing | src/picogrid_ecn_client/_entity_locations.py:542-626 | in every continuation a watcher that is gone stays gone and hears nothing |
| TrackIngress.StepKeeps | src/picogrid_ecn_client/_entity_locations.py:474-626 | each atomic step keeps the whole invariant |
| TrackAccounts.EveryMessageAccounted | src/picogrid_ecn_client/_entity_locations.py:474-641 | in every run each watcher that a message concerned was told what the message says (delivered or rejected), unless the message is ignored by the decoder, is pending for it, was displaced, or the watcher left; it is told at most once, nobody else is told, and what was displaced is told to no one |
| TrackAccounts.ArrivalHeeded | src/picogrid_ecn_client/_entity_locations.py:474-521 | an arrival tells every attached matching watcher at once, in order, or adds one pending value for all of them |
| TrackAccounts.ResumptionTells | src/picogrid_ecn_client/_entity_locations.py:542-603 | in every run a resumed drain task tells each watcher of the oldest pending value, in order, what its message says, and nothing else |
| TrackAccounts.ArrivalTakes | src/picogrid_ecn_client/_entity_locations.py:498-515 | an arrival takes from the index exactly the value it supersedes and those that no run of newest values within the limits includes, and the counters count them as coalesced and evicted |
| TrackAccounts.DisplacedForCause | src/picogrid_ecn_client/_entity_locations.py:498-515 | whatever was displaced in a run gave way to a later message of its identity or for lack of room |
| TrackAccounts.DrainsDry | src/picogrid_ecn_client/_entity_locations.py:542-556 | n resumptions of the drain task take the n oldest values |
| TrackAccounts.DrainEnds | src/picogrid_ecn_client/_entity_locations.py:542-556 | one resumption more than there are values ends the drain task, and no uncancelled one is left |
| TrackAccounts.LeaveStopsIdleDrain | src/picogrid_ecn_client/_entity_locations.py:624-626 | when a watcher leaves nothing pending, every drain task has been told to stop |
| TrackAccounts.WatcherIsConcerned | src/picogrid_ecn_client/_entity_locations.py:523-540 | until it leaves or the service closes, an attached watcher is concerned by exactly the messages that its filters let through |
| TrackAccounts.ClosedForGood | src/picogrid_ecn_client/_entity_locations.py:408-420 | after a shutdown nothing is pending, no one is attached, every drain task was told to stop and no one is told anything, in every continuation |
| TrackService.EntityService.constructor | src/picogrid_ecn_client/_entity_locations.py:118-134 | a new service is the initial state of the ingress |
| TrackService.EntityService.ReceiveEntity | src/picogrid_ecn_client/_entity_locations.py:474-521 | a message performs exactly the receiving step on the fields |
| TrackService.EntityService.IngestEntity | src/picogrid_ecn_client/_entity_locations.py:480-521 | parse failures, the direct path, extraction failures and admission, as the step has them |
| TrackService.EntityService.MatchingWatchers | src/picogrid_ecn_client/_entity_locations.py:523-540 | the attached watchers whose filters match, in order |
| TrackService.EntityService.DecodeAndDeliver | src/picogrid_ecn_client/_entity_locations.py:563-603 | decoding failures are reported, an event supersedes a pending value when asked to, and goes to every recipient in order |
| TrackService.EntityService.PlaceNewest | src/picogrid_ecn_client/_entity_locations.py:504-515 | coalescing, appending and evicting leave exactly the trimmed index, its byte count and the counters |
| TrackService.EntityService.EvictOldest | src/picogrid_ecn_client/_entity_locations.py:509-515 | the eviction loop leaves exactly the trimmed index and counts what it evicts |
| TrackService.EntityService.Admit | src/picogrid_ecn_client/_entity_locations.py:504-515 | an accepted TRACK performs exactly the admission step |
| TrackService.EntityService.EnsureDrain | src/picogrid_ecn_client/_entity_locations.py:516-521 | a drain task is created unless the current one still runs |
| TrackService.EntityService.ResumeDrain | src/picogrid_ecn_client/_entity_locations.py:542-556 | a resumed drain task delivers the oldest value, or ends and clears the task field only if it is its own |
| TrackService.EntityService.AttachWatcher | src/picogrid_ecn_client/_entity_locations.py:170-180 | a watcher is registered unless the service is closed |
| TrackService.EntityService.Relieve | src/picogrid_ecn_client/_entity_locations.py:614-623 | one entry loses a watcher in place, or goes |
| TrackService.EntityService.DetachPending | src/picogrid_ecn_client/_entity_locations.py:614-623 | the loop over a snapshot leaves exactly the entries without the watcher, with their bytes |
| TrackService.EntityService.DetachWatcher | src/picogrid_ecn_client/_entity_locations.py:605-626 | a detachment performs exactly the detaching step, cancelling an idle drain task |
| TrackService.EntityService.Shutdown | src/picogrid_ecn_client/_entity_locations.py:408-420 | closing performs exactly the closing step, once |
| TrackService.EntityService.PopPending | src/picogrid_ecn_client/_entity_locations.py:628-632 | takes the pending value of an identity, with its bytes, and says whether there was one |
| TrackService.EntityService.RecordDecodeError | src/picogrid_ecn_client/_entity_locations.py:634-641 | every recipient is told, in order |
| TrackDelivery.ReaderNeverRegresses | src/picogrid_ecn_client/_entity_locations.py:474-603 | for a run of the service and any run of a stream that was offered a beginning of what a watcher hears: the reader receives the TRACK events about one identity in strictly increasing receipt order, whatever is queued, dropped or superseded |
| TrackDelivery.EveryReaderFresh | src/picogrid_ecn_client/_entity_locations.py:474-603 | in every joint run of the service and all its streams, each notice reaching its stream in the step that says it: an open stream was told exactly what its watcher hears, decode errors included; received and queued events are all of it but the dropped ones; and every reader receives the TRACK events about one identity in strictly increasing receipt order |
| WatchLifecycle.EveryRun | src/picogrid_ecn_client/_entity_locations.py:146-468 | in every interleaving of watches, restore failures, stream closes and service close, each handle is held, in hand or unsubscribed, never twice |
| WatchLifecycle.AfterKeeps | src/picogrid_ecn_client/_entity_locations.py:151-221 | every segment of a watch or of its close task keeps the ledger of its handles and the cleanup lock |
| WatchLifecycle.UnsubscribedAtMostOnce | src/picogrid_ecn_client/_entity_locations.py:448-468 | no handle is unsubscribed twice, and only handles that were given are |
| WatchLifecycle.EndedWatchLeaksNothing | src/picogrid_ecn_client/_entity_locations.py:181-221 | when a watch has raised, or the stream it returned has finished closing, every handle was unsubscribed exactly once |
| WatchLifecycle.FinishedStreamHoldsOne | src/picogrid_ecn_client/_entity_locations.py:183-201 | when a stream has finished closing while its watch is opening, only the handle just given can still be subscribed |
| WatchLifecycle.OpenWatchKeepsItsHandles | src/picogrid_ecn_client/_entity_locations.py:183-208 | a returned watch whose stream is open has every filter subscribed, and none of its handles was touched |
| WatchLifecycle.ServiceCloseClosesStreams | src/picogrid_ecn_client/_entity_locations.py:408-438 | when close has returned no returned stream is open, and every stream that it took has finished closing |
| WatchLifecycle.ClosedServiceReturnsNoWatch | src/picogrid_ecn_client/_entity_locations.py:189-214 | once closing has begun no watch is returned any more |
| WatchLifecycle.RefusedWatchStaysListed | src/picogrid_ecn_client/_entity_locations.py:171-184 | in every run a listed entity watch whose filters were refused stays listed, without a handle, until the service closes |
| WatchLifecycle.UndisturbedWatchReturns | src/picogrid_ecn_client/_entity_locations.py:146-315 | in every run, while the service is open and no subscription of a watch failed or was lost, a watch of either kind opened with n filters is opening, holding or returned, is returned exactly when its n handles are retained, and is then active and listed until it is dismissed |
| WatchLifecycle.FailedForCause | src/picogrid_ecn_client/_entity_locations.py:146-315 | a watch is refused only when its filters cannot be built or the service is closed, and raises only when a subscription failed or was lost or the service is closed; a dismissed or failed stream is closed |
| WatchLifecycle.ClosedWhenCalled | src/picogrid_ecn_client/_entity_locations.py:408-416 | the service is closed exactly from the call of its close on |
| WatchLifecycle.OpenServiceRosters | src/picogrid_ecn_client/_entity_locations.py:146-314 | in every run, the lists of an open service name exactly the entity watches whose cleanup has not begun and the returned location watches whose cleanup has not begun |
| WatchLifecycle.SettledListedIff | src/picogrid_ecn_client/_entity_locations.py:146-314 | while the service is open a watch at rest is listed if and only if it is returned with its stream open, or is an entity watch whose filters were refused |
| WatchLifecycle.NoWatchStuck | src/picogrid_ecn_client/_entity_locations.py:151-221 | a watch that has not settled always has a step to take: the cleanup lock and the awaits of closes cannot deadlock |
| WatchLifecycle.EveryStepSettles | src/picogrid_ecn_client/_entity_locations.py:146-468 | unless a new watch is opened every step that changes anything uses up a bounded amount of work, so every run settles |
| WatchLifecycle.RestMeansReleased | src/picogrid_ecn_client/_entity_locations.py:146-468 | when nothing can move every watch has ended, and if the service was closed every handle ever given was unsubscribed exactly once |
| WatchLifecycle.UnsubscribeAll | src/picogrid_ecn_client/_entity_locations.py:448-468 | the loop unsubscribes every handle last first, empties the list whatever fails, and reports the first error unless suppressed |
| StageGraph.ValidateGraph | scripts/_release_stages.py:95-128 | accepts exactly the graphs with unique names, known dependencies and no cycle; the order is a permutation that respects every dependency and is lexicographically the least such order; an error names the first offence |
| StageGraph.IndexNames | scripts/_release_stages.py:96-100 | the position of every name, or the first repeated name |
| StageGraph.LinkStages | scripts/_release_stages.py:102-112 | dependents listed with multiplicity, dependency counts, or the first unknown dependency |
| StageGraph.CountOff | scripts/_release_stages.py:120-123 | counting a stage off leaves the numbers of missing dependencies and adds exactly the stages that no longer miss any |
| StageGraph.SortTopologically | scripts/_release_stages.py:114-124 | the order is greedy in the smallest ready index and cannot go on |
| StageGraph.ExhaustedIff | scripts/_release_stages.py:126-127 | an order that cannot go on is complete exactly when the graph has no cycle |
| StageGraph.OrderedIsAcyclic | scripts/_release_stages.py:126-127 | a graph with a topological order has no cycle |
| StageGraph.BlockedIsCyclic | scripts/_release_stages.py:126-127 | stages that all wait for one another contain a cycle |
| StageGraph.GreedyIsLeast | scripts/_release_stages.py:117-124 | the greedy order is lexicographically at most every topological order |
| StageRun.RunStages | scripts/_release_stages.py:194-267 | whatever the workers do: stages are submitted at most once, after the results of their dependencies, with a free job, never after a recorded failure, and never before a lesser stage that could start; the thread waits only when all jobs are in use, nothing more can start, or something failed; what has ended is collected once and in order; everything submitted ends and is collected; the run ends with all results or the first recorded error |
| StageRun.RunConcurrently | scripts/_release_stages.py:231-265 | the same for the thread-pool loop, which terminates |
| StageRun.RunSerially | scripts/_release_stages.py:226-229 | the same for one job, in topological order up to the first failure |
| StageRun.SubmitReady | scripts/_release_stages.py:235-244 | ends only when no stage is ready, all jobs are in flight, or a failure is on record |
| StageRun.TrySubmit | scripts/_release_stages.py:236-244 | the failure record is read and the stage submitted under one lock |
| StageRun.AwaitBatch | scripts/_release_stages.py:248-249 | waits only after such a round of submissions, and returns all futures that have ended, in index order |
| StageRun.CollectOne | scripts/_release_stages.py:250-261 | a collected future stores its result and, unless something has failed, releases its dependents |
| StageRun.CollectBatch | scripts/_release_stages.py:249-261 | every future of a batch leaves the futures in flight, collected in index order |
| StageRun.EverythingRan | scripts/_release_stages.py:234-261 | without failure, when nothing is ready or in flight, every stage has run |
| StageRun.SchedulingActed | scripts/_release_stages.py:145-172 | whatever workers do meanwhile, what the scheduling thread knows stays right |
| StageRun.ReadyMaySubmit | scripts/_release_stages.py:236-244 | the first of the ready list can start, and no lesser stage can |
| StageRun.ReadyIffStartable | scripts/_release_stages.py:231-261 | while nothing has failed, the ready list holds exactly the stages not submitted whose dependencies have results |
| StageRun.Pool.Act | scripts/_release_stages.py:145-172 | a worker succeeds, or records its failure first and ends later |
| StageRun.Pool.RecordFailure | scripts/_release_stages.py:85-88 | only the first failure is kept |
| StageRun.Pool.Wait | scripts/_release_stages.py:248 | returns all futures that have ended, at least one, while workers go on |
| StagePermits.EveryRun | scripts/_release_stages.py:145-267 | in every run of arbitrarily nested stage runs, the stacks, flags and permits of all threads fit together, and every run's books account for the bodies on the stacks |
| StagePermits.PermitLaw | scripts/_release_stages.py:145-217 | free permits + executing bodies = jobs, no release exceeds the bound, every nested run is lent its caller's permit, and a waiting thread holds none |
| StagePermits.CallKeeps | scripts/_release_stages.py:200-210 | a body that starts a run always finds its flag set and lends exactly one permit |
| StagePermits.ExecutingHolds | scripts/_release_stages.py:153-159 | an executing thread holds exactly one permit, so its release stays within the bound |
| StagePermits.SomeStageStarts | scripts/_release_stages.py:226-261 | a run with stages left, none in flight and none failed has a stage whose dependencies all have results |
| StagePermits.SomeThreadMoves | scripts/_release_stages.py:145-261 | until the outermost run has ended some thread can move without calling a new run; the move starts a stage only when its dependencies have results and a job of its run is free, and ends a run only when nothing of it is in flight and all its stages have results or one has failed |
| StagePermits.CapacityUsable | scripts/_release_stages.py:145-244 | in every run a thread can take a permit unless as many bodies as jobs execute, and a run with a free job can start every stage whose dependencies have results |
| StagePermits.OutcomeBooked | scripts/_release_stages.py:145-190 | a body that leaves is booked as it ended, with its result or as failed |
| StagePermits.OutcomesStay | scripts/_release_stages.py:226-265 | booked outcomes stay in every continuation, and once a stage of a run has failed none of it starts any more: what was in flight is drained |
| StagePermits.EveryStepSpends | scripts/_release_stages.py:145-261 | every step but a call uses up a bounded effort, so nested runs come to an end once bodies call no more |
| StagePermits.PermitsReturned | scripts/_release_stages.py:212-261 | when the outermost run has ended so has every run, each with all its stages done or one failed; every thread is idle and every permit is back |
| Geodesy.EcefRoundTrip | src/picogrid_ecn_client/_geodesy.py:52-89 | every accepted Earth-centred point, the polar axis included, is the image of the coordinates found for it |
| Geodesy.GeodeticRoundTrip | src/picogrid_ecn_client/_geodesy.py:29-89 | above -(1 - 2 e2) a every position is accepted and recovered: latitude, altitude, and longitude but at a pole |
| Geodesy.GeodeticRoundTripIff | src/picogrid_ecn_client/_geodesy.py:29-89 | among accepted images a position is recovered exactly when its altitude is above -(1 - e2) n |
| Geodesy.BelowTheBound | src/picogrid_ecn_client/_geodesy.py:29-89 | an accepted position not above that altitude exists, and is not recovered |
| Geodesy.Wgs84RoundTrip | src/picogrid_ecn_client/_geodesy.py:29-89 | with the WGS-84 constants every position above -6292 km is recovered |
| Geodesy.Wgs84Radii | src/picogrid_ecn_client/_geodesy.py:12-18 | the equator lies 6378137 metres from the centre and the pole 6356752.3142 |
| Geodesy.PositionIsAlongNormal | src/picogrid_ecn_client/_geodesy.py:21-49 | a position is reached from the point of the ellipsoid whose outward normal is the direction of its latitude and longitude, by going its altitude along that normal |
| Geodesy.VelocityAxes | src/picogrid_ecn_client/_geodesy.py:92-111 | the axes of the rotation are a right-handed frame of north, level east and straight down |
| Geodesy.DegenerateIffInner | src/picogrid_ecn_client/_geodesy.py:61-70 | the guard refuses exactly the points inside the evolute-bounding region p + q <= e^4 |
| Geodesy.CubicResolvent | src/picogrid_ecn_client/_geodesy.py:72-74 | u is a root of the cubic resolvent |
| Geodesy.QuarticRoot | src/picogrid_ecn_client/_geodesy.py:75-77 | k is a root of the quartic of the foot point |
| Geodesy.ShapeRootUnique | src/picogrid_ecn_client/_geodesy.py:61-77 | that quartic has only one positive root |
| Geodesy.VelocityRoundTrips | src/picogrid_ecn_client/_geodesy.py:92-129 | the two rotations are inverse to each other, both ways |
| Geodesy.VelocityKeepsSpeed | src/picogrid_ecn_client/_geodesy.py:92-111 | the rotation keeps the length of a velocity |
| MarkupScanner.AdvanceMarkupState | scripts/license_policy.py:559-620 | jumping from delimiter to delimiter gives the state of a scan character by character, from every start state |
| MarkupScanner.TagReads | scripts/license_policy.py:573-591 | a tag ends at the first bracket outside its quoted values, whatever these hold |
| MarkupScanner.ReadTag | scripts/license_policy.py:573-591 | every line from inside a tag splits into characters and quoted values up to that bracket, the end of the line with the tag open, or a quote that the line does not close |
| MarkupScanner.BlockReads | scripts/license_policy.py:592-602 | a block ends at its first terminator, whatever else stands in it, and without one the line ends in it |
| MarkupScanner.FindTerminator | scripts/license_policy.py:592-602 | the earliest terminator and its width |
| MarkupScanner.FindOpening | scripts/license_policy.py:604-619 | the earliest construct that opens; at one place a block wins over a tag |
| MarkupScanner.ScanJoin | scripts/license_policy.py:559-620 | reading two lines in turn is reading them joined by a space, open quotes included |
| MarkupScanner.FoldIsScan | scripts/license_policy.py:623-629 | folding over lines is one scan of the lines joined by spaces |
| MarkupScanner.HasUnterminatedMarkup | scripts/license_policy.py:623-629 | whether the fold over the physical lines of a text ends open |
| MarkupScanner.JoinedUnterminated | scripts/license_policy.py:711-766 | the text joined from lines is unterminated exactly when the fold over them ends open |
| MarkupScanner.LogicalLines | scripts/license_policy.py:632-676 | the loop with its memory computes the grouping |
| MarkupScanner.NextGroup | scripts/license_policy.py:659-675 | one group, the line after it and what is remembered |
| MarkupScanner.Follow | scripts/license_policy.py:663-668 | where a forward scan stops, what is open there, and the lines it read |
| MarkupScanner.LogicalLinesPromise | scripts/license_policy.py:632-676 | groups concatenate to the lines; every proper beginning of a group is unterminated when joined, and every group of several lines is terminated |
| MarkupScanner.MemoryHarmlessIff | scripts/license_policy.py:654-673 | the grouping is that of following every open line if and only if no remembered line ended in the state that the line of a later group leaves, though what it opens closes |
| MarkupScanner.MemoryHarmlessOnLines | scripts/license_policy.py:654-673 | so it is when no two lines at all are so related |
| MarkupScanner.MemoryIff | scripts/license_policy.py:654-673 | the step behind these: the two groupings first differ where a remembered state passes over a line whose construct closes |
| MarkupScanner.MemoryPassesOver | scripts/license_policy.py:654-673 | lines for which it does not |
| PolicyArray.ArraySpan | scripts/sync_dep_locks.py:388-414 | the span from the bracket of the leftmost header to the bracket that closes it outside strings, or the error |
| PolicyArray.HeaderIff | scripts/sync_dep_locks.py:389 | a header stands exactly where the text has the quoted key, white space, a colon, white space and a bracket |
| PolicyArray.EndIff | scripts/sync_dep_locks.py:393-414 | from a bracket the array ends exactly where balanced brackets and whole strings, with their escapes, end |
| PolicyArray.RefusedIff | scripts/sync_dep_locks.py:388-440 | a replacement is refused as missing exactly when the text has no header, and as unterminated exactly when no array follows the bracket found |
| PolicyArray.ReplacementPromise | scripts/sync_dep_locks.py:435-447 | nothing outside the array changes, the array is found again exactly as rebuilt, and a second replacement is the identity |
| PolicyArray.BracketInKey | scripts/sync_dep_locks.py:388-392 | a key with an opening bracket, for which the span found lies inside the key |
| PolicyArray.PromiseIff | scripts/sync_dep_locks.py:388-447 | the array is found again exactly as written and a second replacement is the identity, for every text and every list, if and only if the key contains no opening bracket |
| PolicyArray.StartIff | scripts/sync_dep_locks.py:389-392 | the search starts at the bracket of the leftmost header if and only if the key contains no opening bracket |
| PolicyArray.StartKept | scripts/sync_dep_locks.py:389-392 | the array is found at its place in every text that agrees up to its bracket |
| PolicyArray.SpanKept | scripts/sync_dep_locks.py:388-447 | the span of the rewritten text is exactly the rebuilt array, whatever brackets, quotes and backslashes the strings hold |
| PolicyArray.RebuiltAgain | scripts/sync_dep_locks.py:441-446 | rebuilding keeps its own indentation and closing |
| PolicyArray.LayoutTakenOver | scripts/sync_dep_locks.py:441-446 | an array laid out with some indentation and closing is rebuilt with the same, for every list of new strings |
| PolicyArray.OneLineSpread | scripts/sync_dep_locks.py:441-446 | an array without line breaks gets four spaces before its strings and two before its bracket |
| PolicyArray.ReplacedLayout | scripts/sync_dep_locks.py:435-447 | so the whole text is what stood before and after the array around the new one in the old layout |
| PolicyArray.ReplacedBack | scripts/sync_dep_locks.py:435-447 | replacing the strings and putting the old ones back restores the text to the letter |
| PolicyArray.LayoutIsLines | scripts/sync_dep_locks.py:445-446 | a rebuilt array has one line for each string, between those of its brackets |
| PolicyArray.StringPrintable | scripts/sync_dep_locks.py:445 | a written string is printable ASCII, so it stays on its line |
| PolicyArray.RebuiltReadsBack | scripts/sync_dep_locks.py:445-446 | the rebuilt array reads back as exactly the given strings, surrogate pairs included |
| PolicyArray.OverString | scripts/sync_dep_locks.py:396-406 | a written string leaves the bracket count where it was |
| PolicyArray.StringReads | scripts/sync_dep_locks.py:445 | a written string reads back as itself |
| DecodeWorklist.ScanTexts | scripts/release_checks.py:1938-1959 | terminates with exactly the texts that any number of unescapes and at most two percent decodings reach, each once, the text itself first |
| DecodeWorklist.Expand | scripts/release_checks.py:1942-1959 | looking at a candidate adds its variants and shrinks the work that remains |
| DecodeWorklist.ClosedIsComplete | scripts/release_checks.py:1942-1959 | a worklist without unexpanded candidates holds exactly the reachable texts |
| StaticLiteral.IntegersExact | scripts/generate_api_reference.py:311-352 | an expression evaluates to an integer exactly when it denotes it in exact arithmetic and no part leaves the bounds |
| StaticLiteral.EveryIntegerExact | scripts/generate_api_reference.py:311-356 | every integer in a result, inside tuples and lists too, is the exact value of its expression and has at most 256 bits |
| StaticLiteral.IntermediateBounded | scripts/generate_api_reference.py:340-351 | no integer built before its check has more than 64 * 256 bits |
| StaticLiteral.EvaluationBounded | scripts/generate_api_reference.py:336-352 | wherever an operation stands in an expression, its integer operands are exact and what it builds before the check has at most 64 * 256 bits |
| StaticLiteral.BinaryExact | scripts/generate_api_reference.py:336-352 | an operation gives an integer exactly when the exact one does, it fits and the exponent is allowed |
| StaticLiteral.FloorIsExact | scripts/generate_api_reference.py:305-306 | floor division and remainder are those of the exact quotient, for operands of either sign |
| StaticLiteral.ConstantKept | scripts/generate_api_reference.py:320-330 | an accepted constant evaluates to itself; integers beyond 256 bits and floats that are not finite are refused |
| StaticLiteral.SignsOfNumbers | scripts/generate_api_reference.py:331-335 | signs are for numbers only, a plus changes nothing, and a second minus undoes the first on integers |
| StaticLiteral.FloatExact | scripts/generate_api_reference.py:336-352 | an operation gives a float exactly when its operands are such numbers, the exponent is allowed and the host's result is that finite float |
| StaticLiteral.CollectionKept | scripts/generate_api_reference.py:353-355 | a tuple or list is accepted exactly when its elements are, holds their values in order, and is otherwise refused for the first that is |
| StaticLiteral.EveryFloatFinite | scripts/generate_api_reference.py:311-356 | no float in a result, inside tuples and lists too, is infinite or undefined, if negation keeps floats finite |
| ConnectBudget.ConnectValidatedAddresses | src/picogrid_ecn_client/_network.py:153-176 | the first address that answers is used; with a positive budget the deadline is kept and its expiry exit never taken, and each address reached is granted what is left of the budget divided by the addresses left, which is at least an equal share; a single one all of it |
| ConnectBudget.ShareCovers | src/picogrid_ecn_client/_network.py:164-167 | an attempt that keeps its window leaves the others at least their equal shares |

## Left out

- MQTT transport, client, task and clock services, wire codecs and models: parameters of the model, or absent.
- Floating-point rounding, the exact zeros emitted at a pole in degrees, and signed zeros in `_geodesy.py`: positions are exact.
- Cancellation of tasks: runs in which a task is cancelled while it cleans up are not modelled. The cancellation of an idle drain task is.
- Which error a refused watch raises (`src/picogrid_ecn_client/_entity_locations.py:196-214`): only that it raises.
- Observed-location caches: their freshness is not ordered by the source across integrations and topics.
- The location callback of a watch (`src/picogrid_ecn_client/_entity_locations.py:251-267`): filters and a delivery that one reading settles.
- A second concurrent reader of one stream: a single close marker is queued.
- TrackService.EntityService.AttachWatcher: the subscriptions that follow a registration are the subject of `WatchLifecycle`, which keeps handles and not messages.
- TrackDelivery.EveryReaderFresh: the capacity of a stream and whether it has a callback are parameters of the step that opens it, and when its close detaches its watcher is not tied to the stream: both orders are runs.
- WatchLifecycle.UnsubscribeAll: is the loop without its awaits; the interleavings of the awaits are in the steps of `WatchLifecycle`.
- StageRun.RunStages: keys results by the position of a stage, which its unique name determines; timings, printed output, summaries and the named `resource` semaphores are absent.
- StageRun.Pool.Wait: takes for granted that stage bodies end.
- StagePermits.EveryRun: a call whose graph is refused is modelled as a run without stages, results are collected when a thread leaves its body, and any idle thread may serve a run with several jobs; the scheduling loop itself is `StageRun`.
- PolicyArray.StartKept: is about keys without an opening bracket; `StartIff` and `PromiseIff` say what holds of the others.
- PolicyArray.SpanKept: is about keys without an opening bracket, for the same reason.
- PolicyArray.ReplacementPromise: is about keys without an opening bracket (`PromiseIff` shows that it can hold of no others), such as the constants at `scripts/sync_dep_locks.py:51-54`; strings hold Unicode scalar values, so lone surrogates do not occur.
- `_rewrite_policy_array` (`scripts/sync_dep_locks.py:417-432`): the substitution of each string in place is absent.
- The stripping of wrappers and the notice patterns of the licence policy, and the scan patterns applied to decoded texts.
- Texts of the errors raised.
- Floats in StaticLiteral: what the host language computes on them, including overflow, is a parameter.
- Subprocesses, git, files, locks, DNS, sockets, credentials, configuration validators, argument parsing, the documentation site and the operator UI.
