# Zane: verified model of the event loop, emitters, timers, paths and buffer codecs

Zane is a JavaScript runtime on top of V8. Most of its files are glue between V8 and the operating system;
this project models the parts that are algorithms or protocols of their own, and proves what they are for.
JavaScript is an arbitrary script of calls, V8 handles are identities, and clocks are parameters.

- `EventLoop.dfy`, `LoopProgress.dfy`, `Pool.dfy`: the event loop of `Runtime::Run`, the thread pool and the task queue. The
  classes hold one method for each critical section; the machine interleaves these sections and the
  unlocked reads of the main thread as atomic steps, with a program counter for the main thread and one for
  each of any number of workers. Waits may wake spuriously, and a notification wakes any sleeper or, if
  nobody sleeps, no one.
- `EventEmitter.dfy`, `Emission.dfy`, `OnceListener.dfy`, `OncePromise.dfy`, `NoTrace.dfy`,
  `Notices.dfy`, `AsyncIterator.dfy`: the listener store with its compact representation (nothing, one function, an
  array of at least two), emission through the task queue, the notices of every change, `once` listeners,
  `events.once`, a run with it compared to the run without it, and the iterator of `events.on`.
- `Timers.dfy`, `TimerLaws.dfy`, `TimerHistory.dfy`: timers whose callbacks set and clear timers while the scheduler
  runs them, and what the history of the calls alone says about them.
- `PosixPath.dfy`: normalisation, `join`, `resolve`, `parse` and `format` of POSIX paths, against a meaning of
  paths as walks through directories.
- `Base64.dfy`, `VarInt.dfy`: base64 (sections 4 and 5 of RFC 4648) and integers of a variable number of bytes.
- `AdaptiveIO.dfy`: the flusher that limits the rate of system calls.
- `Bits.dfy`, `Bytes.dfy`, `Doubles.dfy`, `Options.dfy`, `SteadyClock.dfy`: shared declarations; masks are
  proved on 8-bit vectors, and JavaScript numbers round 64-bit integers to the nearest double.

An operation that updates state in place is a method, proved against a function of the old state; the laws are
lemmas about those functions, over every input and every run. `dafny verify dfyconfig.toml` checks everything.

Where the code does not keep a promise that one might expect, there is an input on which it fails and the exact
condition under which it holds:

- the first three reads of the termination check do not suffice (`EventLoop.FirstReadsAreNotEnough`); with the
  second three the loop ends only when nothing is left, in every run, exactly if it is entered with no microtask
  left over, or with work at hand, or without workers (`EventLoop.EntryDecides`). V8's default policy, which runs
  microtasks after each outermost call, always provides the first of these;
- a listener registered with `once` is called at most once exactly if no emission finds it while a call of it is
  queued (`OnceListeners.OnceListenerFiresAtMostOnce`, `OnceListeners.OnceListenerCanFireTwice`);
- `events.once` makes somebody else's `once` listener for "newListener" or "removeListener" run, and so
  unregister itself; if none is lost, the store is what it would be without the call
  (`NoTrace.OnceListenerForNewListenerIsLost`, `NoTrace.StoresAgreeUnlessWrapperLost`,
  `NoTrace.NewListenerDecides`);
- an emission of the event that `events.once` waits for, or of "error", settles its promise exactly if
  `removeAllListeners` has not been called since for that event or for all
  (`OncePromise.DroppedListenerNeverSettles`, `OncePromise.EmissionSettlesUnlessDropped`);
- after an error the iterator of `events.on` rejects `next` exactly if the last error was defined
  (`AsyncIterators.UndefinedErrorIsForgotten`, `AsyncIterators.ErrorReachesEveryone`);
- registering a listener and then unregistering it restores the store exactly if from the first entry that
  matches on there is nothing but that listener (`EventEmitters.AppendCanReorder`,
  `EventEmitters.RemoveAfterAppend`);
- `format` loses a slash exactly if the last slash of the parsed path is doubled (`PosixPath.FormatUndoesParse`);
- the last segment of `join` may be normalised first exactly if, being absolute, it does not climb above its own
  start, unless it is joined to the root, and if it neither gains nor loses a slash that the joined path shows
  (`PosixPath.JoinRightCanDiffer`, `PosixPath.JoinRightCongruence`);
- decoding and re-encoding gives back a base64 text exactly if it is in the standard alphabet, has the padding its
  length asks for and nothing after it, and its unused bits are zero (`Base64.MissingPaddingIsAdded`,
  `Base64.EncodeInvertsDecodeOfText`);
- `byteLength` of a base64 text counts the bytes it decodes to exactly if the padding accounts for what follows the
  characters that are read, and it can be -1 (`Base64.ByteLengthCanBeNegative`, `Base64.ByteLengthIsExact`);
- writing back what was read from a window is defined and changes nothing exactly if the value of the window fits
  64 bits and is a double, which up to six bytes it always is (`VarInt.WriteBackCanChange`, `VarInt.LargestRoundUp`,
  `VarInt.WriteBack`).

## Model

| member | source | states |
|---|---|---|
| EventLoop.TerminationIsDetected | src/main.cpp:614-664 | in every interleaving, from a safe entry: when the loop decides to end, no task is queued, no timer is live, no job is queued or held by a worker, and the completion of every accepted job has been run exactly once |
| EventLoop.EntryDecides | src/main.cpp:614-664 | the entry is safe (no microtask left over, or a task, timer or pool job at hand, or no worker) if and only if in every run from it the loop ends only when nothing is left |
| EventLoop.QuietLoopEnds | src/main.cpp:616-677 | conversely, once nothing is left and no script runs, the steps of the main thread alone lead to the decision to end |
| LoopProgress.WorkIsTakenUp | src/main.cpp:616-676 | from every reachable state of a safely entered loop with a queued task or a live timer, the steps of the main thread alone lead to the oldest task being run, a tick, or a left-over microtask; to the task if the loop is at its top and one is queued, to the tick if none is |
| LoopProgress.WorkIsTakenUpInEveryRun | src/main.cpp:616-676 | and no interleaving can prevent it: fifteen steps of the main thread are enough, whatever the workers do between them |
| LoopProgress.SleepsWhileThePoolWorks | src/main.cpp:667-675 | while only the pool is at work, the main thread goes to sleep instead of spinning |
| LoopProgress.OldestJobIsRun | src/thread_pool.hpp:47-66 | the steps of an awake worker alone take the oldest job, run it until its completion is queued, wake the main thread, and come back for more |
| LoopProgress.CheckpointDecides | src/main.cpp:625-642 | at the end of the checkpoint after a task or a tick the run ends with an error if and only if an exception was caught |
| LoopProgress.ThrowEndsTheRun | src/main.cpp:586-642 | after a throw in the main script, a task, a tick or a microtask of these no further task is run, in any interleaving: what follows is the rest of the checkpoint and the exit with an error |
| LoopProgress.OnlyThrowsEndWithAnError | src/main.cpp:621-642 | conversely, a run of the loop without a throw never ends with an error |
| EventLoop.FirstReadsAreNotEnough | src/main.cpp:646-652 | a reachable state without microtasks in which the first three reads found nothing although a completion is queued |
| EventLoop.LeftOverMicrotaskLosesACompletion | src/main.cpp:651-664 | a reachable exit with a queued completion, from an entry that is not safe: one microtask, one idle worker and nothing else |
| EventLoop.StepKeepsInv | src/main.cpp:616-677 | every step of the main thread, a worker or a wake-up keeps the conservation, hand-over, wake-up and read invariants, also while microtasks are left over |
| EventLoop.WorkerHandsOver | src/module/node/fs/fs.cpp:2023-2040 | a job queues its completion as its last act: each started job's completion is still to come, queued, or run |
| EventLoop.PoolConserves | src/thread_pool.hpp:22-66 | in every reachable state each accepted job is queued, held by one worker or finished, and only one of these; the active count is the number of workers between pop and decrement; jobs start in the order of submission |
| EventLoop.JoinDrainsThePool | src/thread_pool.hpp:69-77 | after stop and join every accepted job has been run exactly once, also when the loop left with an error |
| EventLoop.JoinNeverBlocks | src/thread_pool.hpp:74-76 | while the destructor joins, the join can end or some worker can move |
| EventLoop.JoinStepDecreases | src/thread_pool.hpp:47-66 | while the destructor joins, every step of a worker brings its end nearer |
| EventLoop.NoLostWakeUp | src/task_queue.hpp:32-60 | while jobs are queued a worker is awake or a notification is on its way; the main thread sleeps over a queued task only while a worker is about to notify it, and that notification wakes it |
| Pools.ThreadPool.constructor | src/thread_pool.hpp:46 | an empty, running pool |
| Pools.ThreadPool.Enqueue | src/thread_pool.hpp:31-35 | appends the job, or refuses it and changes nothing if the pool is stopped |
| Pools.ThreadPool.HasPendingTasks | src/thread_pool.hpp:40-43 | a job is queued or active |
| Pools.ThreadPool.WorkerRound | src/thread_pool.hpp:52-58 | sleeps, leaves, or takes the oldest job and counts it active, as the machine's worker does |
| Pools.ThreadPool.Release | src/thread_pool.hpp:61-64 | counts one job less |
| Pools.ThreadPool.Stop | src/thread_pool.hpp:70-73 | refuses jobs from now on and keeps those queued |
| Pools.TaskQueue.Enqueue | src/task_queue.hpp:32-36 | appends at the end |
| Pools.TaskQueue.Dequeue | src/task_queue.hpp:40-47 | takes the oldest task, or nothing |
| Pools.TaskQueue.IsEmpty | src/task_queue.hpp:49-52 | whether no task is queued |
| Pools.TaskQueue.MustSleep | src/task_queue.hpp:55-58 | a waiter sleeps only over an empty queue |
| EventEmitters.EventEmitter.AddListener | src/module/node/events/events.cpp:256-313 | the compact store refines a map from events to listener lists: append or prepend, after queueing "newListener" for the listeners there were; arrays keep at least two entries and the count stays the number of events |
| EventEmitters.EventEmitter.TakeOut | src/module/node/events/events.cpp:583-633 | removes the first listener that matches by identity or by `.listener`, and tells whether there was one |
| EventEmitters.EventEmitter.RemoveListener | src/module/node/events/events.cpp:565-644 | removal, and "removeListener" queued afterwards for the listeners that are left, only if something was removed |
| EventEmitters.EventEmitter.FindMatch | src/module/node/events/events.cpp:601-606 | the first position that matches, or none |
| EventEmitters.EventEmitter.Without | src/module/node/events/events.cpp:607-612 | the array rebuilt without one entry |
| EventEmitters.EventEmitter.Prepended | src/module/node/events/events.cpp:293-300 | the array rebuilt with one entry in front |
| EventEmitters.EventEmitter.RemoveAllListenersOf | src/module/node/events/events.cpp:661-688 | drops one event, after one "removeListener" for each of its listeners |
| EventEmitters.EventEmitter.RemoveAllListeners | src/module/node/events/events.cpp:689-712 | drops everything, after one "removeListener" for each listener of each event, and resets the count |
| EventEmitters.EventEmitter.CountIsEvents | src/module/node/events/events.cpp:306-313 | `_eventsCount` is the number of events with listeners, and no event has an empty list |
| EventEmitters.EventEmitter.Emit | src/module/node/events/events.cpp:521-562 | queues one call of each listener registered now, in order; without listeners "error" is thrown and other events return false |
| EventEmitters.EventEmitter.EnqueueListenerCall | src/module/node/events/events.cpp:194-201 | one listener call at the end of the task queue |
| EventEmitters.EventEmitter.RunNext | src/module/node/events/events.cpp:362-388 | the oldest task is run; a once wrapper first unregisters itself, which may queue "removeListener" |
| EventEmitters.RemoveUndoesPrepend | src/module/node/events/events.cpp:281-304 | prepending and then removing restores the store |
| EventEmitters.RemoveAfterAppend | src/module/node/events/events.cpp:598-618 | the store after appending and then removing, which takes an earlier match; it is restored exactly if from the first match on there is nothing but the listener |
| EventEmitters.AppendCanReorder | src/module/node/events/events.cpp:598-618 | with [l, m], appending l and removing it leaves [m, l] |
| Notices.EveryListenerIsAnnounced | src/module/node/events/events.cpp:256-712 | conservation over every run: an event has as many listeners as "newListener" was emitted for it more often than "removeListener", however they came and went, once wrappers and `removeAllListeners` included |
| Emission.EmissionIsDeferred | src/module/node/events/events.cpp:534-560 | over every run, the calls made and the calls still queued are the concatenation, in emission order, of the listener lists at each emission |
| Emission.CallsKeepTheirPlace | src/module/node/events/events.cpp:534-560 | by position: call i of emission k is that of its i-th listener, with its arguments, after all calls of earlier emissions |
| Emission.EmissionsAreFinal | src/module/node/events/events.cpp:549-559 | no later step changes what an emission has asked for, or what has been called |
| Emission.CalledOncePerEmission | src/module/node/events/events.cpp:543-560 | over every run a listener has been or will be called as often as emissions found it registered |
| OnceListeners.OnceListenerFiresAtMostOnce | src/module/node/events/events.cpp:362-413 | over every run a listener registered once with `once` is called at most once exactly if no emission finds it while a call of it is still queued |
| OnceListeners.RunNextKeepsInv | src/module/node/events/events.cpp:372-377 | a wrapper that has been called is not registered any more |
| OnceListeners.OnceListenerCanFireTwice | src/module/node/events/events.cpp:390-413 | a once listener whose event is emitted twice before the drain is called twice; the second emission finds it queued |
| Emission.RunNextAgrees | src/module/node/events/events.cpp:167-191 | the run's step changes store and queue as the emitter's method does |
| Emission.NoticesAgree | src/module/node/events/events.cpp:665-678 | the notices of dropping an event are emissions like any other |
| Emission.NoticesOfAllAgree | src/module/node/events/events.cpp:690-709 | so are those of dropping all events |
| NoTrace.LeavesNoTrace | src/module/node/events/events.cpp:849-885 | compared with a run of its own in which `events.once` is not called: unless a wrapper is lost, after settling every event has exactly the same listeners, and the tasks and the calls of everybody else are the same throughout, also if both events were queued before either was run |
| NoTrace.StoresAgreeUnlessWrapperLost | src/module/node/events/events.cpp:268-274 | the stores agree throughout a run if and only if no step runs a notice about the call's own listeners that calls a still registered `once` wrapper of somebody else |
| NoTrace.QuietNoticesNeverLose | src/module/node/events/events.cpp:635-640 | that never happens if no notice about them finds such a wrapper when it is emitted |
| NoTrace.NewListenerDecides | src/module/node/events/events.cpp:1001-1008 | nobody listens to "newListener" with `once` at the call, if and only if the stores agree in every run whose removal notices find no such listener for "removeListener" |
| NoTrace.OnceListenerForNewListenerIsLost | src/module/node/events/events.cpp:362-377 | with one `once` listener for "newListener", running the first notice of the call loses it; without the call it stays |
| OncePromise.SettlesByTheFirstEmission | src/module/node/events/events.cpp:911-1015 | over every run the promise is settled by the first emission, after the call began to listen, of an event that is then still awaited: resolved with the arguments of the event, rejected with the first one of "error"; and it is so settled once the queue is drained |
| OncePromise.FirstOfEitherEvent | src/module/node/events/events.cpp:1001-1008 | unless `removeAllListeners` is called for one of the two events or for all, that is the first emission of either event since the listener was registered, whoever made it |
| OncePromise.EmissionSettlesUnlessDropped | src/module/node/events/events.cpp:642-715 | if no awaited event was emitted before, an emission of either event settles the promise if and only if no `removeAllListeners` since the call was for that event or for all |
| OncePromise.EmissionDecides | src/module/node/events/events.cpp:911-1015 | whatever happens after such an emission, once the queue is drained the promise has its arguments |
| OncePromise.AwaitedUntilDropped | src/module/node/events/events.cpp:661-712 | the call waits for each of its events until `removeAllListeners` takes it away, and nothing else does |
| OncePromise.DroppedListenerNeverSettles | src/module/node/events/events.cpp:680-683 | removed before it is emitted, the event leaves the promise pending although everything has been run |
| OncePromise.OursEffect | src/module/node/events/events.cpp:911-939 | running either wrapper removes both and no other listener |
| OncePromise.RunKeepsInv | src/module/node/events/events.cpp:995-1008 | in every run each of the two wrappers is registered at most once and for its own event, and neither is once the promise has settled |
| AsyncIterators.AsyncIterator.Next | src/module/node/events/events.cpp:1025-1070 | rejects after an error, else yields the oldest buffered event, else is done, else waits |
| AsyncIterators.AsyncIterator.Return | src/module/node/events/events.cpp:1072-1112 | closes the iterator, unregisters both its listeners, and settles every waiting promise as done, first to last |
| AsyncIterators.AsyncIterator.Unregister | src/module/node/events/events.cpp:1081-1096 | removes both listeners from the emitter, which queues "removeListener" |
| AsyncIterators.ClosingRestoresTheStore | src/module/node/events/events.cpp:1239-1252 | closing takes out of the store exactly what `events.on` put in |
| AsyncIterators.RegisteredListens | src/module/node/events/events.cpp:1239-1252 | `events.on` listens behind all others to its event, and to "error" unless that is its event, and changes no other list |
| AsyncIterators.AsyncIterator.OnListener | src/module/node/events/events.cpp:1114-1145 | drops the event if closed, else hands it to the oldest waiting promise, else buffers it |
| AsyncIterators.AsyncIterator.OnErrorListener | src/module/node/events/events.cpp:1147-1169 | records the error, rejects every waiting promise with it, closes and unregisters |
| AsyncIterators.AsyncIterator.Flush | src/module/node/events/events.cpp:1098-1107 | settles the waiting promises in order, and nobody is left waiting |
| AsyncIterators.AsyncIterator.constructor | src/module/node/events/events.cpp:1179-1252 | nothing buffered, nobody waiting, no error, not done; the listeners are registered, that for "error" only if "error" is not the event itself, and each queues "newListener" |
| AsyncIterators.RendezvousIsSound | src/module/node/events/events.cpp:1025-1169 | in every run, errors included: buffered events and waiting promises are never both there, every promise made is either settled, once, or waiting, and after closing or an error nobody waits |
| AsyncIterators.EventsAreYieldedInOrder | src/module/node/events/events.cpp:1025-1169 | in every run, errors included, the events yielded and those buffered are, in this order, those accepted |
| AsyncIterators.DeliveryIsInOrder | src/module/node/events/events.cpp:1025-1145 | in every run without errors the i-th `next` gets the i-th event accepted before closing; beyond the events it is done after closing and pending before |
| AsyncIterators.ReturnAnswersDone | src/module/node/events/events.cpp:1098-1111 | after any run, errors included, the promise of `return` and every waiting one are settled as done, and with nothing else |
| AsyncIterators.ErrorRejectsTheWaiting | src/module/node/events/events.cpp:1152-1167 | after any run an error rejects every waiting promise with it, and with nothing else |
| AsyncIterators.HistoryIsTrue | src/module/node/events/events.cpp:1119-1120 | the events accepted are those that arrived before the first `return` or error |
| AsyncIterators.ErrorReachesEveryone | src/module/node/events/events.cpp:1038-1063 | after every run: an error rejects all that wait; `next` is rejected exactly if the last error was defined, and otherwise gets the oldest event not yielded, or is done if closed, or waits |
| AsyncIterators.UndefinedErrorIsForgotten | src/module/node/events/events.cpp:1152-1153 | after a defined and then an undefined error `next` is done, not rejected |
| Timers.Timer.constructor | src/module/timer.cpp:7-10 | no timers, ids from 1, none running |
| Timers.Timer.SetTimeout | src/module/timer.cpp:48-69 | a fresh id, due after the delay; a negative delay counts as 0 |
| Timers.Timer.SetInterval | src/module/timer.cpp:80-101 | a fresh id, due after the delay and every delay; a delay below 1 ms counts as 1 |
| Timers.Timer.ClearTimeout | src/module/timer.cpp:108-118 | the timer is gone, and if it is the running one it is marked |
| Timers.Timer.DueTimers | src/module/timer.cpp:124-135 | exactly the ids due now, in the order of expiry; equal expiries in any order |
| Timers.Timer.InsertByExpiry | src/module/timer.cpp:134-135 | sorting one more id in |
| Timers.Timer.RunTurn | src/module/timer.cpp:138-169 | a chosen timer that is gone is skipped; otherwise it is taken out and called, and set again only if it is an interval that was not cleared meanwhile; an exception ends the tick |
| Timers.Timer.RunScript | src/module/timer.cpp:155-157 | a callback is any sequence of calls of the others |
| Timers.Timer.Tick | src/module/timer.cpp:120-173 | a turn for each timer that was due at the start, up to the first that throws; true exactly if none threw and timers are left |
| Timers.Timer.HasActiveTimers | src/module/timer.cpp:175-177 | whether a timer is set |
| Timers.Timer.GetNextDelay | src/module/timer.cpp:179-195 | the whole milliseconds until the first expiry, 0 if there is none or it has passed |
| TimerLaws.TickFiresTheDue | src/module/timer.cpp:120-170 | without exceptions, exactly the timers due at the start fire, each once, in non-decreasing expiry and never early, unless an earlier callback clears them; timers created or set again meanwhile do not fire |
| TimerLaws.TickLeaves | src/module/timer.cpp:142-172 | the timers left are exactly those not due and the intervals, unless cleared during the tick, the intervals set again from the end of their callback, and the new ones not cleared since, each as the call that created it says |
| TimerLaws.ClearedNeverFires | src/module/timer.cpp:108-170 | over every run: once a timer has been cleared its callback never runs again, whether it was idle, already chosen or running |
| TimerLaws.FiringsAreSpaced | src/module/timer.cpp:165-169 | over every run: only intervals fire again, never early, and at least the interval after the previous callback returned |
| TimerLaws.NeverBeforeTheDelay | src/module/timer.cpp:48-139 | over every run: no callback runs before its delay has passed since the call that set the timer, be it made by a script or by another timer's callback during a tick |
| TimerLaws.StepKeepsInv | src/module/timer.cpp:40-173 | every script and every tick, exceptions included, keeps ids fresh, set timers uncleared, intervals spaced and delays respected |
| TimerHistory.HistoryDecides | src/module/timer.cpp:48-170 | in every reachable state exactly the timers are set that the history of calls, clears and callbacks says, each of the kind its call asked for and due the delay asked for after the call or, for an interval, after its callback last returned; and every firing was due in this sense |
| TimerHistory.FiringMatchesItsCall | src/module/timer.cpp:48-106 | every firing follows its call, and is an interval of max(1, delay) ms exactly if the call was `setInterval` |
| TimerHistory.TimeoutFiresOnce | src/module/timer.cpp:138-168 | a timer of `setTimeout` fires at most once |
| TimerHistory.IntervalFiresEveryDelay | src/module/timer.cpp:80-106 | two firings of an interval are max(1, delay) ms apart, from the return of the earlier one |
| TimerHistory.UnfiredTimerIsDue | src/module/timer.cpp:48-106 | a timer neither fired nor cleared is set, and due exactly the delay asked for after its call |
| TimerHistory.IntervalIsDueAgain | src/module/timer.cpp:165-168 | an interval that has fired and was not cleared since is due again exactly max(1, delay) ms after its callback returned |
| TimerHistory.TickFiresByTheCall | src/module/timer.cpp:120-163 | a tick without exceptions fires an uncleared timer that has not fired yet if and only if the delay asked for has passed since its call |
| PosixPath.NormalizePosixString | src/module/node/path/path.cpp:38-87 | the normal form: the reduced stack of components, rendered |
| PosixPath.SplitComponents | src/module/node/path/path.cpp:45-59 | the non-empty parts between slashes |
| PosixPath.ReduceComponents | src/module/node/path/path.cpp:61-74 | the stack after all components |
| PosixPath.JoinPath | src/module/node/path/path.cpp:28-36 | the parts with a slash between them |
| PosixPath.NormalizationPreservesMeaning | src/module/node/path/path.cpp:38-87 | normalising does not change the directory a path leads to, from any starting directory |
| PosixPath.NormalizationIsFullyAbstract | src/module/node/path/path.cpp:38-87 | two paths have the same normal form up to a trailing slash exactly if they lead to the same directory from everywhere |
| PosixPath.NormalizationIsIdempotent | src/module/node/path/path.cpp:38-87 | a normal form is its own normal form, trailing slash included |
| PosixPath.ReduceIsWalk | src/module/node/path/path.cpp:62-74 | reducing components is walking them, and leaves "." nowhere and ".." only in front of a relative stack |
| PosixPath.ComponentsOfJoin | src/module/node/path/path.cpp:28-59 | splitting undoes joining |
| PosixPath.JoinPosix | src/module/node/path/path.cpp:449-461 | the normal form of the non-empty segments with slashes between them |
| PosixPath.JoinWalksAllSegments | src/module/node/path/path.cpp:449-461 | `join` leads where walking the components of all segments leads, from the root if the first non-empty segment is absolute, and ends in a slash as the last non-empty one does |
| PosixPath.JoinIsLeftCongruent | src/module/node/path/path.cpp:449-461 | the first segment of a join may be normalised first |
| PosixPath.JoinRightCongruence | src/module/node/path/path.cpp:449-461 | the last of any number of segments may be normalised first if and only if, being absolute, it does not climb (or the rest is the root), and no slash that the joined path shows is gained or lost |
| PosixPath.JoinRightCanDiffer | src/module/node/path/path.cpp:449-461 | normalising "/.." or "./" before it is joined to "a" changes the joined path |
| PosixPath.ResolvePosix | src/module/node/path/path.cpp:403-447 | from a cwd that starts with a slash, the right-to-left scan gives the absolute directory reached by changing directory through all segments in order, with the trailing slash of the last non-empty one |
| PosixPath.FormatOfParse | src/module/node/path/path.cpp:545-632 | formatting a parsed path gives the path, less one slash if the last slash is doubled |
| PosixPath.FormatUndoesParse | src/module/node/path/path.cpp:590-632 | formatting undoes parsing exactly if the last slash is not doubled |
| PosixPath.FormatOfParseNormalizes | src/module/node/path/path.cpp:545-632 | in any case both have the same normal form |
| PosixPath.ParseSplitsBase | src/module/node/path/path.cpp:558-564 | the base has no slash, name and extension make up the base, and `format` may use either |
| PosixPath.RootOfParse | src/module/node/path/path.cpp:554-556 | the root is "/" exactly if the path is absolute, else empty |
| PosixPath.FormatFromRoot | src/module/node/path/path.cpp:597-632 | without `dir` the root takes its place: root and base, which is the path exactly if it has no slash but a first one |
| PosixPath.ExtensionStartsAtLastDot | src/module/node/path/path.cpp:562-564 | the extension starts at the last dot, and a base whose only dot leads it has none |
| Base64.BytesToBase64 | src/module/node/buffer/buffer.cpp:33-64 | the loop over masks and shifts computes the encoding of RFC 4648 |
| Base64.Base64ToBytes | src/module/node/buffer/buffer.cpp:66-107 | the loop decodes the sextets up to the first foreign character, in either alphabet; what `find` returns for the filler is not seen |
| Base64.RoundTrip | src/module/node/buffer/buffer.cpp:33-107 | the encoded text, its URL-safe form, and both without padding all decode to the bytes |
| Base64.DecodeInvertsEverySpelling | src/module/node/buffer/buffer.cpp:66-107 | so does every mixture of the alphabets, followed by anything that starts with a foreign character |
| Base64.EncodeInvertsDecode | src/module/node/buffer/buffer.cpp:33-107 | re-encoding gives back the sextets exactly if they are whole groups or end in zero bits |
| Base64.EncodeInvertsDecodeOfText | src/module/node/buffer/buffer.cpp:33-107 | re-encoding gives back a text exactly if it is its own characters in the standard alphabet with the padding that their number asks for, and its sextets are canonical |
| Base64.MissingPaddingIsAdded | src/module/node/buffer/buffer.cpp:53-62 | "YQ" comes back as "YQ==" |
| Base64.AlphabetIsStandard | src/module/node/buffer/buffer.cpp:27-31 | the 64 characters, in the order of RFC 4648 |
| Base64.TestVectors | src/module/node/buffer/buffer.cpp:33-64 | three test vectors of section 10 of RFC 4648 |
| Base64.LengthOfEncoded | src/module/node/buffer/buffer.cpp:33-64 | four characters for every started group of three bytes |
| Base64.ByteLengthOfEncoded | src/module/node/buffer/buffer.cpp:807-815 | `byteLength` of the encoded text, padded or not, is the number of bytes, below the 32-bit bound |
| Base64.ByteLengthIsExact | src/module/node/buffer/buffer.cpp:807-815 | `byteLength` of any text is the number of bytes it decodes to exactly if what follows the characters read is accounted for by its padding; it is never more than one byte short |
| Base64.ByteLengthCanBeNegative | src/module/node/buffer/buffer.cpp:811-813 | it is -1 for a lone padding character |
| Base64.RegroupedIsQuad | src/module/node/buffer/buffer.cpp:43-46 | the encoder's masks, on 8-bit vectors, and shifts split a 24-bit group into four sextets |
| Base64.AssembledIsTriple | src/module/node/buffer/buffer.cpp:89-91 | the decoder's masks, on 8-bit vectors, and shifts, cut to eight bits, put the group together again |
| VarInt.ReadUIntBE | src/module/node/buffer/buffer.cpp:1387-1399 | the double nearest to the big-endian value of the window modulo 2^64, or a RangeError outside the buffer |
| VarInt.ReadUIntLE | src/module/node/buffer/buffer.cpp:1400-1412 | the same of the reversed window |
| VarInt.ReadIntBE | src/module/node/buffer/buffer.cpp:1354-1370 | the double nearest to the two's complement value of the window of one to eight bytes, or a RangeError |
| VarInt.ReadIntLE | src/module/node/buffer/buffer.cpp:1371-1386 | the same of the reversed window |
| VarInt.WriteIntBE | src/module/node/buffer/buffer.cpp:1415-1430 | the window holds the last digits in base 256 of the number truncated to an integer and nothing else changes; outside the buffer a RangeError and no change |
| VarInt.WriteIntLE | src/module/node/buffer/buffer.cpp:1431-1446 | the same, least significant byte first |
| VarInt.WriteUIntBE | src/module/node/buffer/buffer.cpp:1447-1462 | as for signed values |
| VarInt.WriteUIntLE | src/module/node/buffer/buffer.cpp:1463-1478 | as for signed values, least significant byte first |
| VarInt.UnsignedRoundTrip | src/module/node/buffer/buffer.cpp:1387-1478 | in both byte orders, exactly the doubles that fit the window are read back |
| VarInt.SignedRoundTrip | src/module/node/buffer/buffer.cpp:1354-1446 | in both byte orders, exactly the doubles in the two's complement range of the window are read back |
| VarInt.WriteBack | src/module/node/buffer/buffer.cpp:1354-1478 | the number that was read can be written back, in either order, without changing a byte if and only if the value of the window fits 64 bits and is a double; other numbers differ or are beyond what the writers convert |
| VarInt.SixBytesAreExact | src/module/node/buffer/buffer.cpp:1354-1478 | up to six bytes it never changes any, in both orders, signed and unsigned |
| VarInt.WriteBackCanChange | src/module/node/buffer/buffer.cpp:1396-1398 | windows of nine and of seven bytes that do not survive |
| VarInt.LargestRoundUp | src/module/node/buffer/buffer.cpp:1398 | the largest 64-bit integers are read as 2^64 and 2^63, which the writers do not convert |
| Doubles.TruncatedInteger | src/module/node/buffer/buffer.cpp:1419 | a number that is an integer is written as itself |
| Doubles.TruncatedTowardsZero | src/module/node/buffer/buffer.cpp:1419 | less than one is cut off, towards zero |
| Doubles.ToDoubleIsNear | src/module/node/buffer/buffer.cpp:1398 | rounding a 64-bit integer to a double moves it at most 2^12, and not at all exactly if it is a double |
| Doubles.ToDoubleIsNearest | src/module/node/buffer/buffer.cpp:1398 | the result is a double and no double is nearer; of two equally near ones it is the even one |
| VarInt.SignExtendedIsSigned | src/module/node/buffer/buffer.cpp:1365-1368 | shifting left and back in 64 bits extends the sign, for one to eight bytes |
| VarInt.ValueOfDigits | src/module/node/buffer/buffer.cpp:1425-1428 | the written bytes spell the value modulo 256^n, also below zero |
| VarInt.ByteOrder | src/module/node/buffer/buffer.cpp:1387-1412 | the first byte of a window counts most in big-endian and least in little-endian order |
| AdaptiveFlushing.AdaptiveIO.constructor | src/module/adaptive_io.hpp:19-22 | no calls yet, both time stamps taken from the clock |
| AdaptiveFlushing.AdaptiveIO.Apply | src/module/adaptive_io.hpp:29-57 | a call flushes below the threshold of its window or when no burst flush happened for a window |
| AdaptiveFlushing.FlushDecision | src/module/adaptive_io.hpp:34-56 | over every sequence of calls, by position: a call flushes if and only if it is early (fewer than `threshold` calls after the one that opened the window, or after the construction) or a window's length has passed since the last burst flush and the construction |
| AdaptiveFlushing.OpeningCallsFlush | src/module/adaptive_io.hpp:47-48 | the call that opens a window and the `threshold - 1` calls after it flush |
| AdaptiveFlushing.FirstCallsFlush | src/module/adaptive_io.hpp:47-48 | so do the calls after the construction with a number below `threshold`, while no window opens |
| AdaptiveFlushing.WindowOpens | src/module/adaptive_io.hpp:34-39 | a call opens a window if and only if the last one, or the construction, is a window's length ago |
| AdaptiveFlushing.FlushRateFromStart | src/module/adaptive_io.hpp:29-57 | by T ms after the construction at most (threshold + 1) * (T / window + 1) calls have flushed |
| AdaptiveFlushing.FlushRateAnywhere | src/module/adaptive_io.hpp:29-57 | in any stretch of calls over D ms at most (threshold + 1) * (D / window + 2) flush |
| AdaptiveFlushing.AtMostPerWindow | src/module/adaptive_io.hpp:34-56 | at most threshold + 1 calls of a window flush |
| AdaptiveFlushing.WindowsAreLong | src/module/adaptive_io.hpp:34-39 | windows open at least the window length apart |
| AdaptiveFlushing.NeverStale | src/module/adaptive_io.hpp:47-56 | a call that does not flush comes less than a window after a flush or after the construction |
| AdaptiveFlushing.QuietCallFlushes | src/module/adaptive_io.hpp:34-56 | a call that comes a window or more after the previous one flushes |

## Left out

- V8 itself: templates, handles, garbage collection, module resolution, the REPL and exception reporting.
- The checks of argument counts and types; strings are sequences of characters without embedded NUL.
- File system, process and console I/O; of `src/module/node/fs/fs.cpp` only the hand-off of a job's completion.
- The HTTP server, streams, zlib and the Windows path functions; `hasActiveWork()` counts as false, and
  `relativePosix` is a stub in the repository.
- Easy members of Buffer (hex, swap, indexOf, compare, fill, fixed widths) and `writeBigInt64BE`.
- Machine integers: timer ids, listener counts, `m_active_tasks`, `m_calls_in_burst`, offsets and lengths are
  unbounded; 64-bit wrap-around and 8-bit truncation are written out where the codecs use them.
- In the event loop, timers are a number and every timeout of the main thread's wait may end at any time; the
  timers themselves are modelled on their own. Every submission has an identity of its own.
- LoopProgress.WorkIsTakenUp: a safely entered loop; what an unsafe entry can lose is shown by EventLoop.EntryDecides.
- Notices.EveryListenerIsAnnounced: nobody emits the two notices by hand, and the enumeration of the store names each
  of its events once.
- TimerLaws.TickFiresTheDue: a tick with an exception stops at it; such ticks are covered by the laws over whole runs.
- Symbols as event names, names inherited from `Object.prototype`, `errorMonitor`, the max-listeners warning,
  `captureRejections`, a user's own `emit` or `removeListener`, and changes to the live array that
  `rawListeners` returns.
- NoTrace.LeavesNoTrace: nobody else registers or removes the functions that the call itself creates, or emits
  them; `removeAllListeners()` visits the events in the same order with and without the call.
- OncePromise.SettlesByTheFirstEmission: the same about the functions of the call; that the promise has settled is
  said of states in which no listener call is queued.
- OnceListeners.OnceListenerFiresAtMostOnce: the wrapper is registered once and not wrapped by another `once`.
- AbortSignal and `close` options of `events.once` and `events.on`, and emitters that are EventTargets.
- PosixPath.ResolvePosix: states nothing about a current directory that does not start with a slash.
- VarInt.ReadIntBE: inside the buffer one to eight bytes, since for others the shift of the code is undefined. The
  same holds for ReadIntLE.
- VarInt.WriteIntBE: any real number whose integer part fits 64 bits; NaN, infinities and larger numbers are left
  out, since the conversion of the code is undefined for them. The same holds for the other writers.
- Base64.ByteLengthOfEncoded: assumes that three times the length of the text fits 32 bits, as the code does. The
  same holds for ByteLengthIsExact.
- AdaptiveFlushing.AdaptiveIO.Apply: the clock does not go back; `flush` is the decision, not the system call.
