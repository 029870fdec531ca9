# Verification of the page-fetch engine of veidemann-browser-controller

A Dafny model of the part of the browser controller that decides when a page has been fetched and what is
reported about it, with proofs that hold for every interleaving, every schedule and every input.

    dafny verify dfyconfig.toml

## What is modelled

Concurrent parts come in two layers. A *machine* is a transition system in which one step is one atomic operation
or one statement of the source; an event names who steps and settles every choice (which case of a `select`, what a
callback answers, what the clock shows), so a schedule is a sequence of events and "every run" is a universally
quantified sequence. Beside it stands a *class* whose methods update its fields as the source does, with the other
goroutines running, as a parameter says, between the statements; each method is proved to be a run of the machine, so
what is proved about all runs holds of the code in its own shape.

| files | what |
|---|---|
| `WaitGroupMachine`, `WaitGroup` | the lock-free wait group: counter, three-valued state, close-once channel, cancel, context |
| `CompletionTimerMachine`, `CompletionTimerRuns`, `CompletionTimerTimeouts`, `CompletionTimerOutcomes`, `CompletionTimer` | the completion timer: two timers, `done` word and channel, caller-supplied check, re-arming, Reset, integer clock |
| `Discovery`, `Requests` | the request registry: lookups, MatchCrawlLogs, and the single pass of FinalizeResponses against a recursive definition |
| `Lifecycle`, `ProxyProtocol`, `ProxyLaws`, `ProxyStream` | what browser events and proxy streams do to a session's requests; how the `Do` stream takes its messages, the laws of that, and the code itself |
| `SessionPool`, `SessionRegistry` | the bounded pool of session ids |
| `PageAccounts`, `Controller`, `BrowserController` | the controller loop, its workers, the API server, Shutdown and CloseWait over that pool |
| `PageFetch`, `PageReport` | the end of a fetch: timer and requests together, then finalizing and collecting |
| `ScriptChain`, `SessionScripts` | the script interpreter and the selection of scripts |
| `CacheHistory`, `ConfigCache` | the cache with its clock and purges, and the adapter that reads through it |
| `GoBasics` | 32-bit wrap-around, filtering of lists |

## What the model assumes

- Go's memory model is sequential consistency over single reads and writes of plain fields; `time.Now()` inside a
  statement is read in that statement's step. The clock is an integer that does not run backwards.
- One goroutine calls WaitForCompletion and Reset of a timer; any number call Notify and Cancel. This is how both
  timers are used (session/session.go:267-268). The result of `check` is part of the event, so every check is covered;
  `PageFetch` ties it to the requests.
- The sleep of the backoff, the frontier, the robots evaluator, the database, the browser and the transport answer
  anything, at any time.
- MatchCrawlLogs is one atomic step, and FinalizeResponses and the collecting of lines 370-402 run without interference.
  In the source the first two are loops that do not take the registry's mutex, and streams write to requests without it.
- The robots evaluator answers for a URI, and the same for the whole handling of a message.
- A session's context, url and registry, which Fetch sets one after the other, are one flag `ready`.
- The database returns an object whenever it returns no error (database/database.go:93-106); a list may be nil or
  empty, which the cache treats differently.
- JSON texts are parsed values; unmarshalling an object into the existing map keeps the entries that it does not
  name. Marshalling the arguments cannot fail, as they consist of strings and parsed JSON.

## What the proofs found

- **nil from Wait.** It need not mean that the counter was zero during the call; `NilMeansZeroExactlyWhen` gives the
  exact condition, `NilWithoutZero` a run, and `NilIsJustified` what nil always means.
- **Reset.** It clears a success without reopening the channel. `SecondCloseExactlyWhen`: the channel can be closed a
  second time if and only if that has happened. `ClosesTwice` is a run. Neither of the two
  usages is exposed.
- **Cancelled without Cancel.** The channel stays closed after such a Reset, and the next wait is told Cancelled
  although nobody called Cancel. `CancelledMeansCancelExactlyWhen` has the exact condition, `CancelledWithoutCancel` a run.
- **IdleTimeout and a standing clock.** A timer that fires exactly at its deadline re-arms without a Notify having
  paid for it; `WaitIsBounded` counts these.
- **A request that refers to itself** continues its own, old path: `RepeatIsIdentityExactlyWhen`, with `SelfReferrer` as the case.
- **Redirects have no initiator.** The event goes to the first request with the NetworkId, and a paused request has none
  (`RequestWillBeSent`, `RequestPaused`), so a redirect is labelled R even where a script started the first request.
- **Success of the wait** covers what was registered up to the successful check. `RootLacksLogExactlyWhen`: the root
  request lacks its crawl log if and only if a redirect of the page was registered after the check and the last one has
  not been completed. `PageFetch.FinishPage`: if the page itself was registered by the check, outlinks then make the
  fetch panic, and nothing else does.
- **FromCache implies GotComplete** between messages, but not between lines 327 and 329 of server/server.go, which
  another goroutine can observe (`CachedAndIncomplete`). `LifecycleIsOrdered` has the exact condition, and
  `CachedIsCompleteAtBoundaries` states it for the streams as they run.
- **A second cached completion of the page** aborts the fetch again, which closes a closed channel. `CompletionStops`
  says exactly when a completion panics, `SecondCompletionPanics` that every later one does, `SecondAbort` shows one.
- **Script data errors** are reported with the id of the script that was to be run next (script/script.go:94).
- **The cache** stores an object under the id it has, not the one asked for, and selectors share the map:
  `OwnAnswersExactlyWhen`. Staleness is bounded from the store, not from the answer: `AnswerMayBeOlder`. A selector
  that finds nothing is a nil list and is asked for again each time.
- **A failed session.New** loses its id for good (`LostForGood`); the pool shrinks by one (`EveryIdComesBack`).

## Model

| member | source | states |
|---|---|---|
| GoBasics.Int32 | syncx/waitgroup.go:42 | the 32-bit wrap-around of the counter: the result is in range and congruent to the unbounded sum |
| WaitGroupMachine.StepInv | syncx/waitgroup.go:41-69 | every atomic step of every goroutine keeps the invariant: state in 0..2, at most one goroutine owes the close of `done`, `done` closed once exactly when state is 2 and nobody owes it, and a waiter parked over a zero counter in state 1 is owed a wake-up |
| WaitGroupMachine.Safety | syncx/waitgroup.go:41-69 | the invariant holds after every schedule of any number of Add, Done, Wait and Cancel |
| WaitGroupMachine.Monotone | syncx/waitgroup.go:41-69 | state only moves 0, 1, 2 and no channel is ever reopened |
| WaitGroupMachine.NoLostWakeup | syncx/waitgroup.go:41-65 | with no Add in flight, a goroutine parked over a zero counter finds `done` closed exactly once, and its select returns nil |
| WaitGroupMachine.CommittedStays | syncx/waitgroup.go:41-46 | once an Add holds a zero it saw while waiting was announced, no schedule can undo the wake-up |
| WaitGroupMachine.ZeroIsNeverForgotten | syncx/waitgroup.go:41-65 | if the counter touches zero under a parked waiter at any moment, then `done` is closed as soon as no Add is in flight, even if later Adds raise the counter |
| WaitGroupMachine.DoneIsLatched | syncx/waitgroup.go:57-64 | once `done` is closed no later Wait can block |
| WaitGroupMachine.CancelWakes | syncx/waitgroup.go:57-69 | once Cancel has closed its channel, a goroutine that is parked after any later schedule comes out of the select with Cancelled by that case |
| WaitGroupMachine.ContextWakes | syncx/waitgroup.go:57-59 | the same for the end of the context and ExceededMaxTime |
| WaitGroupMachine.CounterIsTheSum | syncx/waitgroup.go:41-50 | in every run the counter is the sum of the deltas of all calls of Add, modulo 2^32 |
| WaitGroupMachine.SawZeroHasStart | syncx/waitgroup.go:42-43 | an Add between its two atomic operations did bring the counter to zero, and has been there since |
| WaitGroupMachine.ClosedHasCause | syncx/waitgroup.go:41-46 | state 2 has a cause in the past: an Add that saw zero and won the swap while state was 1 |
| WaitGroupMachine.NilIsJustified | syncx/waitgroup.go:48-65 | Wait returns nil only if its own load sees zero, or an Add still in flight after waiting was announced had seen zero |
| WaitGroupMachine.ErrorsAreJustified | syncx/waitgroup.go:57-64 | Cancelled only after Cancel, ExceededMaxTime only after the context ended |
| WaitGroupMachine.NoZeroNoWakeup | syncx/waitgroup.go:41-65 | without a zero during the call, and with nothing decided before it, Wait does not return nil |
| WaitGroupMachine.StaleSchedule | syncx/waitgroup.go:41-65 | the schedule that makes nil mean less: an Add that saw zero before waiting began delivers it afterwards |
| WaitGroupMachine.NilMeansZeroExactlyWhen | syncx/waitgroup.go:48-65 | a nil from a Wait started in a reachable state means that the counter was zero during the call if and only if the counter is zero at its start, or state is not 2 and no Add is between its two operations |
| WaitGroupMachine.NilWithoutZero | syncx/waitgroup.go:41-65 | a reachable state, after three Adds of two goroutines, in which it is not so |
| WaitGroups.WaitGroup.constructor | syncx/waitgroup.go:32-39 | a new wait group is the initial state of the machine |
| WaitGroups.WaitGroup.Add | syncx/waitgroup.go:41-46 | Add, with other goroutines running between its operations, is exactly the schedule add, swap, close of the machine, and stops after the add if the sum is not zero |
| WaitGroups.WaitGroup.Done | syncx/waitgroup.go:48-50 | Done is Add of -1 |
| WaitGroups.WaitGroup.Wait | syncx/waitgroup.go:52-65 | Wait is exactly the schedule swap, load, and then the chosen case of the select; nil at once if the load sees zero, else the error or nil of the chosen case exactly if its channel is closed or the context has ended by then, and parked otherwise |
| WaitGroups.WaitGroup.Select | syncx/waitgroup.go:57-64 | one settled case: ExceededMaxTime if the context has ended, nil if done is closed, Cancelled if Cancel has been called, and still parked exactly if the case chosen is not ready |
| WaitGroups.WaitGroup.Cancel | syncx/waitgroup.go:67-69 | Cancel is one close of the cancel channel |
| CompletionTimerMachine.CloseStep | syncx/completiontimer.go:63-132 | each closing of doneChan, done or due, answers to one moment at which `done` left 0; every step keeps the account |
| CompletionTimerMachine.CloseAccounting | syncx/completiontimer.go:63-132 | the same after every schedule |
| CompletionTimerMachine.NotificationsAreCounted | syncx/completiontimer.go:64-131 | in every run the sum of what Reset returned plus the current notifyCount equals the number of calls of Notify modulo 2^32 |
| CompletionTimerRuns.NeverResetDiscipline | session/session.go:267-268 | for a timer that is never Reset (the session timer): `done` leaves 0 at most once and keeps its value, and doneChan is closed at most once and only because `done` left 0 |
| CompletionTimerRuns.NoSuccessStep | syncx/completiontimer.go:71-76 | while no check has said true nobody can come to claim a success |
| CompletionTimerRuns.NeverTrueDiscipline | session/session.go:267-321 | for a timer whose check never says true (the network activity timer), Reset any number of times: `done` is never 1, no wait reports success, doneChan is closed at most once and only because of Cancel |
| CompletionTimerRuns.CancelSurvives | syncx/completiontimer.go:120-132 | in that usage every later Reset leaves Cancel in force |
| CompletionTimerRuns.Drain | syncx/completiontimer.go:73-76 | goroutines that have won their swap can all come to close the channel |
| CompletionTimerRuns.ClosesTwice | syncx/completiontimer.go:120-132 | a run of a timer with zero limits that closes its channel twice |
| CompletionTimerRuns.SecondCloseExactlyWhen | syncx/completiontimer.go:129 | outside the two usages: doneChan can be closed a second time, which panics, if and only if a Reset has at some time found `done` at 1 |
| CompletionTimerTimeouts.TouchBound | syncx/completiontimer.go:65-86 | the idle deadline lies at least maxIdleTime after every write of it so far |
| CompletionTimerTimeouts.Origin | syncx/completiontimer.go:80-88 | behind every wait in progress there are its call, the arming of its total timer with that deadline, and its first write of the idle deadline, in this order |
| CompletionTimerTimeouts.ReadsFreshCheck | syncx/completiontimer.go:93-101 | what the waiter reads in lastCheckResult, which others may have overwritten, is the result of a check made since its own |
| CompletionTimerTimeouts.ExpiryAfterFalse | syncx/completiontimer.go:99-104 | the idle expiry is only looked at after a check in the same round said false |
| CompletionTimerTimeouts.LoopStep | syncx/completiontimer.go:90-117 | every step keeps the loop invariant: fired timers were due, each re-arm is paid for by a Notify or by a clock standing at the deadline, and the work done so far is bounded by the re-arms |
| CompletionTimerTimeouts.IdleTimeoutIsSound | syncx/completiontimer.go:99-105 | IdleTimeout: strictly more than maxIdleTime has passed since the call and since every write of the idle deadline, and a check in that round said false |
| CompletionTimerTimeouts.ExceededMaxTimeIsSound | syncx/completiontimer.go:92-98 | ExceededMaxTime: at least maxTotalTime has passed since the call, and a check since the timer fired said false |
| CompletionTimerTimeouts.SuccessHasTrueCheck | syncx/completiontimer.go:71-112 | a wait returns nil only if some evaluation of the check said true |
| CompletionTimerTimeouts.WaitIsBounded | syncx/completiontimer.go:90-117 | the waiter re-arms at most once per Notify, apart from re-arms with the clock exactly at the deadline, and takes at most ten steps plus five per re-arm |
| CompletionTimerTimeouts.DeadlineEndsWait | syncx/completiontimer.go:92-98 | at the total deadline the select has a ready case, and choosing it ends the wait in two more steps of the waiter, whatever the others do |
| CompletionTimerTimeouts.ChecksFollowAWait | syncx/completiontimer.go:67-88 | no check is evaluated before the first call of WaitForCompletion |
| CompletionTimerOutcomes.HowAWaitEnds | syncx/completiontimer.go:82-116 | which step makes the wait return what: nil exactly on a true lastCheckResult, or in line 111 with `done` 1; Cancelled exactly in line 111 with `done` not 1; ExceededMaxTime exactly on a false check after the total timer; IdleTimeout exactly past idleTimeout |
| CompletionTimerOutcomes.DoneIsTwoExactlyWhen | syncx/completiontimer.go:120-129 | in every run `done` is 2 if and only if some call of Cancel has found it at 0 |
| CompletionTimerOutcomes.CancelledIsJustified | syncx/completiontimer.go:110-124 | a wait that returns Cancelled found `done` not at 1, and if no Reset has ever cleared a success, somebody called Cancel before, and found nothing decided |
| CompletionTimerOutcomes.CancelledInBothUsages | session/session.go:267-321 | so it is for a timer that is never Reset and for one whose check never says true |
| CompletionTimerOutcomes.CancelledMeansCancelExactlyWhen | syncx/completiontimer.go:110-129 | from a reachable state on, Cancelled always means that Cancel was called, if and only if not both: a Reset has found `done` at 1, and `done` is 0 now |
| CompletionTimerOutcomes.CancelledWithoutCancel | syncx/completiontimer.go:110-129 | a run in which a wait is told Cancelled and nobody has ever called Cancel |
| CompletionTimerOutcomes.ClosedEndsWait | syncx/completiontimer.go:110-116 | once `done` is set and doneChan closed, taking that case ends the wait with nil after a success and Cancelled after a Cancel, whatever the others do meanwhile |
| CompletionTimerOutcomes.CancelCloses | syncx/completiontimer.go:120-124 | a Cancel that finds nothing decided sets `done` to 2 and closes doneChan |
| CompletionTimerOutcomes.NotifyDecides | syncx/completiontimer.go:63-78 | a Notify that nobody overtakes: it moves the idle deadline and is counted; before `started` it evaluates no check; after, a true check sets `done` to 1 and closes doneChan exactly if nothing was decided |
| CompletionTimerOutcomes.IdleTimerActs | syncx/completiontimer.go:99-108 | the idle timer at its deadline, with nobody in between: nil on a true check, else IdleTimeout exactly if idleTimeout is past, else a re-arm |
| CompletionTimerOutcomes.IdleDeadlineIsNear | syncx/completiontimer.go:85-108 | in every run the idle timer is due at most maxIdleTime from now, and line 107 sets it to exactly the idleTimeout it reads |
| CompletionTimerOutcomes.ResetAlone | syncx/completiontimer.go:128-132 | a Reset that nobody overtakes turns 1 into 0 and leaves 0 and 2, clears `started` and the count, and reopens nothing |
| CompletionTimers.CompletionTimer.constructor | syncx/completiontimer.go:45-61 | a new timer is the initial state of the machine |
| CompletionTimers.CompletionTimer.Notify | syncx/completiontimer.go:63-78 | Notify, interleaved with anything, is exactly the schedule of its steps: count, deadline, `started`, then the check, and a swap and a close if and only if each step before leads there |
| CompletionTimers.CompletionTimer.Cancel | syncx/completiontimer.go:120-124 | Cancel is exactly the swap, and the close if `done` was 0 |
| CompletionTimers.CompletionTimer.ReadResult | syncx/completiontimer.go:82-103 | one step; where each of the three reads of lastCheckResult leads |
| CompletionTimers.CompletionTimer.Arm | syncx/completiontimer.go:85-88 | the four steps in the order of the source: the total timer is armed first, the idle timer not before it, each from the clock at its own line, and `started` is set at the end |
| CompletionTimers.CompletionTimer.Select | syncx/completiontimer.go:91-110 | the case chosen is taken if and only if it is ready: its timer is due, or the channel closed |
| CompletionTimers.CompletionTimer.Proceed | syncx/completiontimer.go:92-116 | what follows a settled select is exactly the schedule of its steps, ending in the result or back in the select; with doneChan closed the result is nil if `done` is 1 and Cancelled if not |
| CompletionTimers.CompletionTimer.Loop | syncx/completiontimer.go:90-117 | the loop is exactly the schedule of its turns; it is still in the select only if every case offered was not ready or led back to it |
| CompletionTimers.CompletionTimer.Rearm | syncx/completiontimer.go:107 | the idle timer is set to idleTimeout, at most maxIdleTime from now |
| CompletionTimers.CompletionTimer.WaitForCompletion | syncx/completiontimer.go:80-118 | the whole wait is exactly the schedule of check, arming and turns, for any interleaving; IdleTimeout comes more than maxIdleTime, and ExceededMaxTime at least maxTotalTime, after the call; Cancelled only with `done` not 1 and, unless a Reset has cleared a success, after a Cancel; nil only with a true check or `done` 1; a closed doneChan is not passed over |
| CompletionTimers.CompletionTimer.Reset | syncx/completiontimer.go:128-132 | Reset is exactly its three steps, clears `started`, and returns the count that the last of them sets to 0 |
| Discovery.Parent | requests/requests.go:148-154 | a redirect parent is earlier in the list |
| Discovery.Source | requests/requests.go:172-178 | the request whose path is continued is earlier and has a crawl log, unless it is the request itself |
| Discovery.Root | requests/requests.go:145-152 | the root is the last request that shares the first one's NetworkId |
| Discovery.ChainIsExact | requests/requests.go:148-154 | following parents goes through exactly the earlier requests with the same NetworkId, in order |
| Discovery.RootChain | requests/requests.go:145-154 | from the root it reaches the first request, through all that share its NetworkId |
| Discovery.OwnReferrer | requests/requests.go:147-158 | a request is its own referrer exactly when its Referrer is its own Url, because it enters the map before its referrer is looked up |
| Discovery.PathShape | requests/requests.go:156-178 | with no self-referrer a path is the seed path, or nothing, followed by one letter R, E or X for each step of discovery |
| Discovery.FinalizedPathSays | requests/requests.go:156-178 | for every list: a path ends in X exactly if the initiator is a script, else in R exactly if an earlier request has the NetworkId, else in E (in the seed path for the first); before that stands the path of the nearest earlier request with the NetworkId if that has a crawl log, else of the latest with the referrer's url, else nothing |
| Discovery.StablePath | requests/requests.go:156-178 | a path does not change in a second pass |
| Discovery.RepeatIsIdentityExactlyWhen | requests/requests.go:142-190 | the pass is idempotent if and only if no request with a crawl log continues its own path; it is whenever no request refers to itself, and the root never changes |
| Discovery.SelfReferrer | requests/requests.go:142-190 | a list whose paths grow with every pass |
| Requests.RequestRegistry.AddRequest | requests/requests.go:72-76 | appends, and keeps requests and crawl logs unshared |
| Requests.RequestRegistry.RequestPaused | session/eventlisteners.go:128-142 | a paused request is appended with what the browser says of it, without initiator, crawl log or flags |
| Requests.RequestRegistry.RequestWillBeSent | session/eventlisteners.go:42-46 | the first request with the NetworkId, and no other, gets the initiator of the event |
| Requests.RequestRegistry.GetByNetworkId | requests/requests.go:78-87 | the first request with the id, or nil exactly when there is none |
| Requests.RequestRegistry.GetByRequestId | requests/requests.go:89-98 | the first request with the id, or nil exactly when there is none |
| Requests.RequestRegistry.GetByUrl | requests/requests.go:100-111 | the first request with the url that, if asked for, is not yet marked new; nil exactly when there is none |
| Requests.RequestRegistry.MatchCrawlLogs | requests/requests.go:113-132 | true if and only if every request has a crawl log |
| Requests.RequestRegistry.FinalizeResponses | requests/requests.go:142-190 | the pass with its two maps, in place: root, parents, referrers and discovery paths are those of the recursive definition, and each path says how its request was discovered, letter and continued path, in terms of the list before the pass; on an empty list it panics and nothing else |
| Requests.RequestRegistry.Pass | requests/requests.go:143-189 | the loop; after any number of requests the maps hold the last request per key and the finished part is as defined |
| Requests.RequestRegistry.LinkRedirect | requests/requests.go:148-153 | one request: its parent, and the root carried along the redirects |
| Requests.RequestRegistry.Describe | requests/requests.go:156-178 | one crawl log: its referrer, and the path of the recursive definition, of which FinalizedPathSays tells letter and front |
| Lifecycle.StepInv | server/server.go:206-330 | each write of a stream or of the browser keeps: complete implies new and a crawl log; from cache implies complete, or some stream stands between lines 327 and 329 with that request |
| Lifecycle.RunGrows | session/eventlisteners.go:128-143 | requests are only appended, and no flag or crawl log is ever taken back |
| Lifecycle.EffectIs | server/server.go:206-330 | each write changes one field of one request, or one word of the session, to the value it carries |
| Lifecycle.LastInitiatorCounts | session/eventlisteners.go:42-46 | after any run a request has the initiator of the last event about it |
| Lifecycle.LastLogCounts | server/server.go:321 | and the crawl log of the last stream that stored one |
| Lifecycle.LifecycleIsOrdered | server/server.go:206-330 | in every interleaving of all streams and listeners: every request from the cache is complete if and only if no stream stands between lines 327 and 329 with a request nobody has completed; so it is whenever every stream is between two messages |
| Lifecycle.CachedAndIncomplete | server/server.go:327-329 | a run in which another goroutine sees the window between these two writes |
| ProxyProtocol.ById | requests/requests.go:89-98 | the first request with the id, and none exactly when there is none |
| ProxyProtocol.ByNewUrl | requests/requests.go:100-111 | the first request of the url that is not marked new, and none exactly when there is none |
| ProxyProtocol.OthersSound | server/server.go:127-334 | the other streams and the browser keep the shared state in order, take nothing back, and leave a stream where it stands |
| ProxyLaws.NewIsAnswered | server/server.go:144-287 | a New that does not end the stream has one reply: a NewReply for a direct session, and on a session of the registry exactly if robots allow the URI and the New has an id or is CONNECT or OPTIONS; else a CancelReply |
| ProxyLaws.NewStops | server/server.go:144-287 | a New ends the stream exactly in three cases: with a panic if the number is out of range or the session not set up, as cancelled if the session to be told has ended, and if the transport fails |
| ProxyLaws.NewMarksWhatIsSought | server/server.go:206-274 | the first request with the id, or for OPTIONS the first of the url that is not new, becomes the stream's request; it is marked, and the session told unless it is an OPTIONS; if there is none nothing is written |
| ProxyLaws.NewKeeps | server/server.go:144-287 | a New leaves the shared state in order and the stream between two messages |
| ProxyLaws.CompletionEnds | server/server.go:321-332 | a completion breaks off before line 327 exactly if the response is from the cache and the abort fails; otherwise the request is complete, and from the cache if the response was |
| ProxyLaws.CompletionWrites | server/server.go:321-332 | a completion that does not end the stream writes the crawl log, if cached the abort (for the page only) and FromCache, then GotComplete, then tells the session, and nothing else |
| ProxyLaws.CompletionStops | server/server.go:321-332 | on a session that is set up, a completion panics exactly if it is cached, of the page, and the fetch was aborted before; it ends as cancelled exactly if the session has ended |
| ProxyLaws.SecondCompletionPanics | session/session.go:637-641 | after a page has been completed from the cache every later cached completion of it panics, on any stream and whatever has happened in between |
| ProxyLaws.SecondAbort | session/session.go:637-641 | a concrete session, aborted once, on which the next cached completion of the page panics |
| ProxyLaws.CompletionOffSession | server/server.go:321-332 | on a stream whose session is none of the registry a completion panics, after the crawl log and, unless cached, GotComplete are written |
| ProxyLaws.CompletedWithoutRequest | server/server.go:299-320 | a Completed about no request writes a crawl log exactly for a direct session, if it is not from the cache and has a WARC id; it panics exactly without crawl log or session |
| ProxyLaws.NotifyWrites | server/server.go:288-297 | a Notify: without a session the stream ends and nothing is written; with a request the session is told once, or the stream ends as cancelled exactly if the session has; without a request nothing happens |
| ProxyLaws.OnlyNewChangesVariables | server/server.go:127-334 | from message to message only a New changes session and request or is answered, only a Completed writes crawl logs, and the end of the input ends the stream |
| ProxyLaws.ConversationKeeps | server/server.go:127-334 | at every message boundary, over every sequence of messages and with any other streams: the shared state is in order, nothing has been taken back, the stream stands nowhere between lines 321 and 329, and a stream that has ended not between 327 and 329 |
| ProxyLaws.CachedIsCompleteAtBoundaries | server/server.go:327-329 | FromCache implies GotComplete at every message boundary at which the other streams are between two messages as well, or have broken off |
| ProxyLaws.OneReplyEach | server/server.go:127-334 | over every sequence of messages: one reply for each New handled, in order, and no other; a NewReply on a session of the registry only for a URI that robots allow |
| ProxyLaws.StreamPromises | server/server.go:127-334 | a whole stream: those replies, and how it ends goes with the message it ends on; a stream still open has handled them all |
| ProxyLaws.ConversationStays | server/server.go:127-334 | a stream that has ended takes no further message |
| ProxyStream.ApiServer.NotifySession | session/session.go:156-174 | one notification and no other change; Canceled exactly if the session has ended, a panic exactly if it has no context |
| ProxyStream.ApiServer.FindByRequestId | requests/requests.go:89-98 | the loop finds the first request with the id |
| ProxyStream.ApiServer.FindNewByUrl | requests/requests.go:100-111 | the loop finds the first new request of the url |
| ProxyStream.ApiServer.Announce | server/server.go:206-214 | looks up, marks and tells as the protocol says, with the others running in between |
| ProxyStream.ApiServer.AnnounceOptions | server/server.go:242-248 | the same for OPTIONS, without telling the session |
| ProxyStream.ApiServer.HandleNew | server/server.go:144-287 | a New is taken exactly as the protocol says: turns, session, request, reply and end |
| ProxyStream.ApiServer.HandleNotify | server/server.go:288-297 | a Notify is taken as the protocol says; in terms of the sessions: with a request one more notification of the session if it is ready and has not ended, and otherwise no change and the stream ends; without a session NoSession, without a request nothing |
| ProxyStream.ApiServer.HandleCompleted | server/server.go:298-333 | and a Completed, with the crawl logs written for a direct session |
| ProxyStream.ApiServer.Complete | server/server.go:321-332 | the completion of a request, with the others running between its writes, is that of the protocol, including when it ends the stream |
| ProxyStream.ApiServer.MarkCached | server/server.go:322-328 | panics exactly if the session has no first request or this is the page and it was aborted before; otherwise aborts the page, and only the page, and sets FromCache |
| ProxyStream.ApiServer.FlagComplete | server/server.go:329 | sets GotComplete |
| ProxyStream.ApiServer.Handle | server/server.go:127-334 | one message, after whatever the others have done, is taken as the protocol says |
| ProxyStream.ApiServer.Do | server/server.go:96-336 | over every sequence of messages and any other streams: shared state, crawl logs written, replies, messages handled and result are those of the protocol's conversation |
| SessionPool.PartitionStep | session/registry.go:51-87 | each operation keeps the ids 1..max-1 divided, without duplicates, among the channel, the agents and the losses |
| SessionPool.SlotsStep | session/registry.go:64-84 | a slot is filled exactly while its session is published |
| SessionPool.MutexStep | session/registry.go:80-87 | the mutex is held from step to step by at most one agent, inside Release |
| SessionPool.WgStep | session/registry.go:64-85 | the wait group counts exactly the sessions published and not yet marked done |
| SessionPool.PoolIsConserved | session/registry.go:36-87 | all of these, in every reachable state, for any number of agents |
| SessionPool.SendNeverBlocks | session/registry.go:86 | the send back to the pool, made with the mutex held, always has room |
| SessionPool.PoolPromises | session/registry.go:36-87 | no two agents share an id, slot 0 stays nil, the wait group is never negative, and whoever is inside Release can go on |
| SessionPool.EveryIdComesBack | session/registry.go:36-87 | with all sessions released the channel holds exactly the ids that are not lost, each once: max - 1 less one for every session that could not be made, and all if and only if there was none |
| SessionPool.LostForGood | session/registry.go:60-63 | an id that is lost stays lost |
| SessionRegistry.Registry.constructor | session/registry.go:36-49 | max - 1 ids, empty slots, wait group 0 |
| SessionRegistry.Registry.GetNextAvailable | session/registry.go:51-67 | Canceled exactly if the context is done, and then nothing has changed; without an id it waits; with one it has a session of the first id in its slot if the mutex is free and New succeeds, has lost the id if New fails, and waits with it if the mutex is held |
| SessionRegistry.Registry.Resume | session/registry.go:58-66 | from where an agent waits for the mutex: the same three ways on |
| SessionRegistry.Registry.Get | session/registry.go:73-78 | a session exactly if one of that number is published, and then one with this id; a panic exactly if the number is out of range |
| SessionRegistry.Registry.Release | session/registry.go:80-87 | slot, wait group, channel, in this order with others observing in between; the id is the last in the channel afterwards |
| SessionRegistry.Registry.CurrentSessions | session/registry.go:93-101 | the number of filled slots |
| PageAccounts.PagesStep | controller/browsercontroller.go:97-120 | each page obtained is with the loop, with one worker, or reported, and once only |
| PageAccounts.ReleasesStep | controller/browsercontroller.go:112-123 | a session is marked done by its worker after its page was reported, and once |
| Controller.LinksMain | controller/browsercontroller.go:75-126 | the loop has of the pool what its place in the code says |
| Controller.LinksWorker | controller/browsercontroller.go:112-123 | so does every worker |
| Controller.ChannelsStep | controller/browsercontroller.go:56-108 | the two channels never overflow; nothing is in backoff once the default branch is entered; the context is only cancelled behind a message in done |
| Controller.ControllerIsSafe | controller/browsercontroller.go:47-126 | all of these invariants in every interleaving of loop, workers, API server, Shutdown and CloseWait |
| Controller.AllPagesAreReported | controller/browsercontroller.go:64-123 | if CloseWait ends because all sessions have finished, every page obtained was reported exactly once and its session marked done exactly once |
| Controller.ReportedBeforeReleased | controller/browsercontroller.go:112-121 | in every reachable state PageCompleted comes before Release, and neither comes twice |
| Controller.SendsNeverBlock | controller/browsercontroller.go:103 | neither the send to backoff nor a send to the pool ever blocks |
| Controller.CanceledMeansReturn | controller/browsercontroller.go:56-91 | when GetNextAvailable returns Canceled a message is waiting, so the loop does not spin: its next step at the select returns |
| Controller.ShutdownIsHeard | controller/browsercontroller.go:76-131 | after a call of Shutdown, whatever happens, the message waits until the loop takes it; back at the select it can take it and return, and cannot enter the default branch; at most the turn under way obtains one more page |
| Controller.ShutdownCanFinish | session/registry.go:103-116 | from every reachable state of CloseWait there is a continuation that ends it with all sessions finished: no deadlock |
| BrowserControllers.BrowserController.constructor | controller/browsercontroller.go:47-75 | the state in which the loop is entered |
| BrowserControllers.BrowserController.Sleep | controller/browsercontroller.go:80-83 | the backoff message is taken and the loop goes round |
| BrowserControllers.BrowserController.SeeCancelled | controller/browsercontroller.go:86-91 | one step; the message that ends the loop is there and backoff is empty |
| BrowserControllers.BrowserController.GetNextPage | controller/browsercontroller.go:97 | one step; one more page obtained exactly if the frontier gives one |
| BrowserControllers.BrowserController.ReleaseStep | session/registry.go:84-86 | one of the three steps of Release, none blocked once the mutex is held |
| BrowserControllers.BrowserController.Spawn | controller/browsercontroller.go:112-123 | one step; a new worker has the session and the pending page |
| BrowserControllers.BrowserController.GiveBack | controller/browsercontroller.go:98-108 | exactly if the mutex is free the session is released, and the loop goes on after NotFound and is left after any other error |
| BrowserControllers.BrowserController.Default | controller/browsercontroller.go:84-123 | the default branch ends at the select or in a return, unless it waits: for an id with the context alive, or for the mutex |
| BrowserControllers.BrowserController.CloseWait | session/registry.go:103-116 | ends as the time-out says, or else exactly if all sessions have finished |
| BrowserControllers.BrowserController.Run | controller/browsercontroller.go:47-126 | Run is a run of the controller. It has not ended only if it has been through its select once per turn, or waits for an id, the mutex or the sessions; if it ends because all sessions have finished, the reported pages are exactly those obtained, without duplicates, and no slot is filled |
| PageFetch.Projections | session/session.go:267-268 | a page's fetch seen by its timer is a run of the timer, seen by its requests a run of their life cycle |
| PageFetch.SuccessInstant | session/session.go:348-352 | if the session timer's wait returns nil there was an instant, after its call, at which every registered request had its crawl log |
| PageFetch.NothingRegisteredIsLost | session/session.go:348-356 | and each of these requests is still there with a crawl log whenever the responses are finalized |
| PageFetch.RootLacksLogExactlyWhen | session/session.go:348-440 | after a successful wait the root request lacks its crawl log if and only if a redirect of the page was registered after the check and the last such redirect has not been completed |
| PageFetch.FinishPage | session/session.go:348-455 | on the registry itself, in place: everything registered up to the successful check is listed with its discovery path, the first request is not missing if it was among that, and the fetch panics exactly if there are outlinks and such a late redirect |
| PageFetch.SuccessMayMissTheRoot | session/session.go:440 | a concrete run with such a redirect |
| PageReports.Collect | session/session.go:370-402 | the crawl logs written are those with a WARC id, in order, counted and summed; the resources describe exactly the requests with a crawl log, in order |
| PageReports.QueueOutlinks | session/session.go:434-445 | one entry per outlink with the root's path and url; panics exactly if there are outlinks and the root has no crawl log |
| PageReports.Report | session/session.go:409-455 | an error exactly if the first request has no crawl log |
| PageReports.Conclude | session/session.go:370-455 | on finalized responses: what is written, listed and queued, and how the fetch ends |
| PageReports.Finish | session/session.go:356-455 | finalizing and collecting together: resources and outlinks carry the paths of the recursive definition; the exact conditions under which the fetch panics or fails |
| ScriptChain.LastValue | script/script.go:57-63 | the value of the last seed annotation with the key |
| ScriptChain.BindAnnotations | script/script.go:56-63 | the nested loops compute: the keys both lists have, each with its last seed value |
| ScriptChain.Override | script/script.go:65-67 | adding the data, in any order of the map, overrides what is there |
| ScriptChain.Run | script/script.go:40-104 | the interpreter makes exactly the calls of the trace specification and ends as it says, for every browser and every number of answers; the same in terms of its calls alone: which script each runs, where each argument comes from, which waits stand behind it, and how the last answer ends it |
| ScriptChain.LiveBefore | script/script.go:49-102 | a later execution implies all earlier ones, each with an answer that goes on |
| ScriptChain.RunIsDetermined | script/script.go:49-102 | only one number of executions fits a chain |
| ScriptChain.IdsFollowNext | script/script.go:86-90 | ids follow `next`, and "self" runs the same script again when the map is keyed by id |
| ScriptChain.ArgumentsAre | script/script.go:56-69 | the arguments of the k-th execution have exactly the keys (script annotations ∩ seed annotations) ∪ data, the data decides, else the last seed annotation |
| ScriptChain.CarriedIsTheMerge | script/script.go:91-98 | the data is the right-biased merge of all objects returned since the last answer without one |
| ScriptChain.CallsAre | script/script.go:74-101 | the k-th execution is followed at once by one wait if and only if its answer asked for it and its data could be read |
| ScriptChain.EveryCallBelongs | script/script.go:74-101 | and there are no other calls |
| ScriptChain.CallsAreATrace | script/script.go:49-102 | the calls in terms of scripts, seed and answers: the first runs the start script, each next one what the answer names, with the keys that answers provide or script and seed share, the answer deciding, else the last seed annotation; a wait right behind it exactly if asked for |
| ScriptChain.EndingIs | script/script.go:49-103 | how a run ends, by its last answer, with the name and id of the script reported |
| ScriptChain.FinishedExactlyWhen | script/script.go:49-103 | a run ends without error if and only if nothing was to be run, the last execution had no result, or it named nothing next |
| ScriptChain.StopsForGoodReason | script/script.go:50-96 | for each way of stopping, which answer it goes with and which script it names; every answer before the last could be used |
| ScriptChain.SelfRunsOn | script/script.go:86-90 | nothing in the interpreter bounds a chain of a script that names itself |
| SessionScripts.Match | session/script.go:267-283 | true if and only if there is no pattern, or one that compiles and matches |
| SessionScripts.SessionScripts.constructor | session/script.go:42-49 | no scripts, and SCOPE_CHECK blacklisted |
| SessionScripts.SessionScripts.IsBlacklisted | session/script.go:51-58 | membership of the blacklist |
| SessionScripts.LoadScripts | session/script.go:64-82 | under each type exactly the scripts of the configuration that are of this type, not blacklisted and match the URL |
| SessionScripts.SelectionIsAPartition | session/script.go:71-80 | that selection keeps the configuration's order, each script once, under its own type, and none is left out |
| SessionScripts.GetReplacementScript | session/script.go:84-109 | the script with the first pattern that attains the maximum positive match length; none if and only if no pattern matches a non-empty piece |
| SessionScripts.ReplacementIsUnique | session/script.go:92-107 | that determines the choice |
| SessionScripts.ByIdIsExact | session/script.go:178-184 | the script map is keyed by id and the script added last counts |
| SessionScripts.ExecuteScripts | session/script.go:112-191 | one chain per script of the type, in order, until one does not finish; each record is a run from that script, with the scripts added so far, the last one of an id counting, and the arguments drawn from the caller's seed and the chain's own answers; other types are refused |
| SessionScripts.ReachesExactly | session/script.go:178-190 | some browser makes the i-th chain execute an id if and only if it is the id of an UNDEFINED script or of one of the first i + 1 of the type, is not empty, and is "self" only for a chain that starts there |
| CacheHistory.LookupFindsTheLastStore | database/cache.go:34-80 | a lookup finds the last store under the key if and only if that is less than ttl old, whatever has been purged; with ttl 0 it finds nothing |
| CacheHistory.PurgedAgrees | database/cache.go:34-42 | a purged cache is part of the one that was never purged, and lacks only what has expired |
| CacheHistory.PurgeIsUnobservable | database/cache.go:34-80 | lock-step equality of all lookups with a cache that is never purged |
| CacheHistory.SplitIsExact | database/dbadapter.go:73-77 | splitting a selector loses nothing; a single part means there is no colon |
| CacheHistory.AsksForItsLabel | database/dbadapter.go:73-77 | the label asked for has no colon in key or value, and the selector is key:value, or begins with key:value and a colon |
| CacheHistory.LabelIsUnique | database/dbadapter.go:73-77 | that determines the label |
| CacheHistory.WellKeyedSuffices | database/dbadapter.go:50-86 | in a well-keyed configuration each store that serves a lookup passes on an answer to the very question |
| CacheHistory.OwnAnswersExactlyWhen | database/dbadapter.go:56-61 | in all histories lookups are served with answers to their own question if and only if the configuration is well keyed: nothing found for an id carries another id looked up or a selector, and no selector is an id |
| CacheHistory.ServedIsRecent | database/cache.go:44-80 | what is served was stored less than ttl ago, after the database gave it as the answer to that question |
| CacheHistory.AnswerMayBeOlder | database/dbadapter.go:56-61 | the answer itself can be older than ttl, by any delay between answer and store |
| ConfigCaches.Cache.constructor | database/cache.go:20-32 | an empty cache |
| ConfigCaches.Cache.Purge | database/cache.go:34-42 | everything that had expired when the purge began is gone, nothing that has not expired at its end, and no other entry has changed |
| ConfigCaches.Cache.SetMany | database/cache.go:48-58 | the entry of the key, and no other, is replaced, and expires ttl later; nothing happens with ttl 0 |
| ConfigCaches.Cache.GetMany | database/cache.go:68-80 | the lookup in the history of the cache at the time it reads |
| ConfigCaches.Cache.Get | database/cache.go:60-66 | the first object of that, if there is one |
| ConfigCaches.ConfigCache.FetchObject | database/dbadapter.go:56-63 | what the database finds is stored under its own id |
| ConfigCaches.ConfigCache.GetConfigObject | database/dbadapter.go:50-64 | from the cache if it has the id, else the database is asked for this id and its answer stored; an error only after a miss |
| ConfigCaches.ConfigCache.FetchSelector | database/dbadapter.go:79-85 | the database is asked for the label that the selector spells and its answer stored under the selector |
| ConfigCaches.ConfigCache.GetConfigsForSelector | database/dbadapter.go:67-86 | from the cache if it has the selector, else the database is asked for the label that the selector spells: key before the first colon, value before a second one; one without a colon panics exactly if it is not in the cache |
| ConfigCaches.ConfigCache.GetReferred | database/dbadapter.go:90-96 | the references in order, up to the first error |
| ConfigCaches.ConfigCache.GetSelected | database/dbadapter.go:97-103 | the selectors in order, up to the first error or panic |
| ConfigCaches.AppendLaysOut | database/dbadapter.go:89-104 | the objects stand first and the elements of each list follow in order, with nothing lost or added |
| ConfigCaches.ConfigCache.GetScripts | database/dbadapter.go:88-105 | the objects referred to in order, then what each selector finds in order, each with its origin in a lookup of this call |
| ConfigCaches.EveryScriptIsRecent | database/dbadapter.go:88-105 | in a well-keyed configuration every object and every list returned was given by the database for that reference or selector: during the call, or before a store less than ttl old |

## Left out

- chromedp and the DevTools protocol, screenshots, cookies, outlink extraction, workspace cleanup: browser I/O. Outlinks are a parameter of `PageReports.Finish`.
- The phases of Fetch before the wait of line 349, and the choice of an error code after the wait for frames (lines 336-346): each is one condition on values modelled here.
- gRPC, the frontier, the log writer and the robots evaluator: they answer anything. The timeouts of Send and Recv (server/interruptablejob.go) appear only as failed sends and receives.
- RethinkDB: connection, retries, codecs.
- URL parsing and regular expressions: functions about which nothing is assumed.
- JSON text, duplicate keys and upper or lower case of field names.
- Logging, metrics, tracing, options and main.go.
- Cookies and headers that the listener sets on a paused request (session/eventlisteners.go:144-154), and new targets: no effect on the state modelled.
- The sums of sizes are unbounded integers; the counts of notifications, of frames and of URIs wrap around at 32 bits.
- Fairness: `ShutdownCanFinish`, `ShutdownIsHeard`, `ClosedEndsWait`, `DeadlineEndsWait` and `NoLostWakeup` show that a way on exists or that a case is ready; that the scheduler takes it is not part of the model.
- WaitGroups.WaitGroup.Cancel: a second call would panic on the closed channel; the model counts the closes instead. The session calls it once unless the page is completed from the cache twice, for which `ProxyLaws.SecondCompletionPanics` shows the panic.
- ProxyStream.ApiServer.Do: a panic ends the stream; what the gRPC server makes of it is not modelled.
- SessionRegistry.Registry.GetNextAvailable: the agent's wait is shown as `Blocked`. In front of the select it can be called again; with an id in hand it goes on with `Resume`.
- BrowserControllers.BrowserController.Run: covers as many turns as its parameter has; a loop that goes on is shown as None.
