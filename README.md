# watchdog observer core in Dafny

This project models the platform-independent core of the watchdog file-system monitoring
library and proves properties about it. The core is:

- the watch descriptor `ObservedWatch`;
- the de-duplicating `EventQueue` shared by all emitters;
- the per-emitter event-kind filter of `EventEmitter.queue_event`;
- the `BaseObserver` registry and its operations, which update four structures in place:
  - `_watches`;
  - `_handlers` (watch → set of handlers);
  - `_emitters`;
  - `_emitter_for_watch` (watch → emitter).

  The operations are `schedule`, `add_handler_for_watch`, `remove_handler_for_watch`,
  `unschedule`, `unschedule_all` and `start`;
- one `dispatch_events` step;
- the platform classification of `watchdog.utils.platform`.

The project has these modules:

- `Wrappers`: Option and Result.
- `Platform`: `get_platform_name` and the four `is_*` predicates. The platform string is a
  parameter.
- `Watches`: `ObservedWatch` as an immutable datatype. Its identity is its key, the triple
  (path, recursive, frozen filter).
- `EventQueues`: the put semantics of the queue. `SkipRepeats` is the value of the queue
  after a run of puts. The `EventQueue` class is proved against it through a ghost history
  of every entry put.
- `Emitters`: the `Emitter` class, with its thread lifecycle as a field (Idle, Running,
  Stopped), and the filter test `Admits`.
- `Registries`: the four structures as one value (`Registry`), the invariant `Inv` that ties
  them together, and each registry operation as a function with lemmas about its effect.
- `Delivery`: the delivery rule of `dispatch_events` as a function `Deliver`. It walks a
  snapshot of the watch's handlers and calls each one still registered just before its
  turn. A handler's callback may edit the handler map; that edit is a `Reaction` applied
  after the call.
- `Observers`: the `BaseObserver` class. Its fields are the four structures, `alive`, the
  shared queue and a `trace` of the stop, join and dispatch calls it makes. Each method is
  proved against the registry value of `Registries` and against `Deliver`.

Several points follow the code as written:

- `schedule` adds the handler before it builds the emitter. When starting the new emitter
  raises, the handler entry stays, the emitter is not registered and the watch is not added.
  Nothing is rolled back.
- `dispatch_events` takes a snapshot of the handler set and also re-checks each handler before
  calling it. So a handler added by a callback is not called for the current event.
- Handler exceptions are not isolated by `dispatch_events`.
- The queue read in `dispatch_events` blocks with no timeout.
- A failed `start` removes the failing emitter but leaves its watch in `_watches`. A later
  `unschedule` of that watch raises KeyError.

## Model

| member | source | states |
|---|---|---|
| Platform.GetPlatformName | src/watchdog/utils/platform.py:27-40 | the result is always one of the five platform names |
| Platform.KnownPrefixesExclusive | src/watchdog/utils/platform.py:28-38 | no string starts with two different tested prefixes, so the order of the tests does not matter |
| Platform.ClassifiedByKnownPrefix | src/watchdog/utils/platform.py:28-38 | a string starting with any tested prefix is classified as that prefix's platform ("win" → windows, "darwin" → darwin, "linux" → linux, the five BSD prefixes → bsd) |
| Platform.UnknownIffNoKnownPrefix | src/watchdog/utils/platform.py:40 | a string is classified "unknown" exactly when it starts with none of the tested prefixes |
| Platform.NameIffPrefix | src/watchdog/utils/platform.py:28-38 | each of windows, darwin, linux and bsd is returned exactly for strings with one of its own prefixes (both directions) |
| Platform.IsLinux | src/watchdog/utils/platform.py:46-47 | true exactly when the platform string starts with "linux" |
| Platform.IsBsd | src/watchdog/utils/platform.py:50-51 | true exactly when the platform string starts with one of the five BSD prefixes |
| Platform.IsDarwin | src/watchdog/utils/platform.py:54-55 | true exactly when the platform string starts with "darwin" |
| Platform.IsWindows | src/watchdog/utils/platform.py:58-59 | true exactly when the platform string starts with "win" |
| Platform.AtMostOnePlatform | src/watchdog/utils/platform.py:46-59 | at most one `is_*` predicate holds, and none holds exactly when the name is "unknown" |
| Platform.PredicatesDependOnlyOnName | src/watchdog/utils/platform.py:43-59 | two strings classified alike agree on all four predicates |
| Watches.Freeze | src/watchdog/observers/api.py:53 | the frozen filter is absent exactly when none was given, and has exactly the classes listed |
| Watches.NewWatch | src/watchdog/observers/api.py:50-53 | the watch stores the path's string form, the recursive flag and the frozen filter |
| Watches.EqualIffSameKey | src/watchdog/observers/api.py:70-78 | two watches are equal exactly when their (path, recursive, filter) keys are equal |
| Watches.EqualWatchesHashEqually | src/watchdog/observers/api.py:80-81 | equal watches have equal hashes, for any hash function on keys |
| Watches.PathObjectIsItsString | src/watchdog/observers/api.py:51 | a path object and its string give the same watch |
| Watches.FilterOrderIrrelevant | src/watchdog/observers/api.py:53 | filters listing the same classes, in any order and with any repeats, give the same watch |
| EventQueues.SkipRepeatsHasNoRepeats | src/watchdog/observers/api.py:30-36 | the queue never holds two equal consecutive entries, nor an entry equal to the one enqueued before |
| EventQueues.SkipRepeatsKeepsValues | src/watchdog/observers/api.py:30-36 | only entries that were put are enqueued, and every entry put is enqueued unless it repeats the last enqueued one |
| EventQueues.SkipRepeatsAppend | src/watchdog/observers/api.py:30-36 | putting a run of entries is putting its first part, then the rest after the first part's last entry |
| EventQueues.SkipRepeatsKeepsRepeatFree | src/watchdog/observers/api.py:30-36 | a run without consecutive repeats is enqueued unchanged |
| EventQueues.SkipRepeatsIdempotent | src/watchdog/observers/api.py:30-36 | re-putting the queue's contents into an empty queue gives the same contents |
| EventQueues.SkipRepeatsExample | src/watchdog/observers/api.py:30-36 | putting [A, A, A, B, A] enqueues [A, B, A] |
| EventQueues.EventQueue.constructor | src/watchdog/observers/api.py:176 | a new queue is empty, with no entry put and none unfinished |
| EventQueues.EventQueue.Put | src/watchdog/observers/api.py:30-36 | an entry equal to the last one enqueued leaves the queue unchanged; any other entry is appended and counted as unfinished |
| EventQueues.EventQueue.Get | src/watchdog/observers/api.py:375 | removes and returns the head entry; an empty queue is left as it is |
| EventQueues.EventQueue.TaskDone | src/watchdog/observers/api.py:387 | decrements the unfinished count when it is positive and reports whether it was |
| Emitters.AdmitsExtremes | src/watchdog/observers/api.py:141 | with no filter every event passes; with an empty filter none does |
| Emitters.AdmitsMonotone | src/watchdog/observers/api.py:141 | a wider filter passes every event that a narrower one passes |
| Emitters.Emitter.constructor | src/watchdog/observers/api.py:115-120 | the emitter is bound to the queue and watch, with the frozen filter, and is Idle |
| Emitters.Emitter.Start | src/watchdog/observers/api.py:305-306 | starting succeeds exactly from Idle when the start hook does not raise, and then the emitter is Running |
| Emitters.Emitter.Stop | src/watchdog/observers/api.py:236 | the emitter is Stopped |
| Emitters.Emitter.QueueEvent | src/watchdog/observers/api.py:141-142 | when the filter passes the event, `(event, watch)` is put on the queue with the skip-repeat rule and counted as unfinished when appended; otherwise the queue is unchanged; every queued entry stays counted as unfinished |
| Registries.Empty | src/watchdog/observers/api.py:224-227 | the empty registry satisfies the invariant |
| Registries.OneEmitterPerWatch | src/watchdog/observers/api.py:229-231 | when each emitter is stored under its own watch, there are as many emitters as watches with one |
| Registries.EmitterCountIsWatchCount | src/watchdog/observers/api.py:229-231 | under the invariant, `_emitters` has exactly one emitter per key of `_emitter_for_watch` |
| Registries.AddHandlerEffect | src/watchdog/observers/api.py:249-252 | adding a handler creates the entry if missing, adds only that handler, changes no other entry or structure, and keeps the invariant |
| Registries.AddHandlerIdempotent | src/watchdog/observers/api.py:249-252 | adding a registered handler again is a no-op |
| Registries.RemoveHandlerFailsIffUnregistered | src/watchdog/observers/api.py:344-345 | removal raises KeyError exactly when the watch is unknown or the handler is not registered for it |
| Registries.RemoveHandlerEffect | src/watchdog/observers/api.py:344-345 | a successful removal takes out exactly that handler, keeps the possibly empty entry, changes nothing else, and keeps the invariant |
| Registries.RemoveHandlerUndoesAdd | src/watchdog/observers/api.py:344-345 | removing a handler just added to an existing entry gives back the original registry |
| Registries.SchedulePreservesInv | src/watchdog/observers/api.py:298-309 | `schedule` keeps the invariant when the emitter it may build is new and keyed by the watch |
| Registries.ScheduleEffect | src/watchdog/observers/api.py:298-309 | `schedule` adds the handler and the watch, and registers a new emitter only for a watch that has none; otherwise the emitter structures are unchanged |
| Registries.ScheduleIdempotent | src/watchdog/observers/api.py:298-309 | repeating a schedule of the same handler on an equal watch changes nothing |
| Registries.ScheduleAllShares | src/watchdog/observers/api.py:303-308 | once a watch has an emitter, further schedules of it only add handlers |
| Registries.ScheduleAllOneEmitter | src/watchdog/observers/api.py:303-307 | any number of schedules of equal watches register exactly one emitter, the first one built |
| Registries.UnscheduleFailsIffNoEmitter | src/watchdog/observers/api.py:357 | `unschedule` raises KeyError exactly when the watch has no emitter |
| Registries.UnscheduleEffect | src/watchdog/observers/api.py:356-360 | a successful `unschedule` removes the watch's handler entry, its emitter and key, and the watch itself, changes nothing else, and keeps the invariant |
| Registries.UnscheduleTwiceFails | src/watchdog/observers/api.py:356-360 | a second `unschedule` of the same watch raises KeyError |
| Registries.UnscheduleUndoesSchedule | src/watchdog/observers/api.py:356-360 | unscheduling a watch new to the registry undoes its `schedule` and returns the emitter built for it |
| Registries.RemoveEmitterLeavesWatch | src/watchdog/observers/api.py:262-268 | removing a failed emitter keeps the invariant but leaves the watch scheduled, so a later `unschedule` raises KeyError |
| Delivery.Deliver | src/watchdog/observers/api.py:384-386 | only snapshot handlers are called, so handlers added during the dispatch are not called, and there are at most as many calls as snapshot handlers |
| Delivery.DeliverFollowsSnapshot | src/watchdog/observers/api.py:384-386 | handlers are called in snapshot order |
| Delivery.CalledAtMostOnce | src/watchdog/observers/api.py:384 | a snapshot of a set calls each handler at most once |
| Delivery.RegisteredAtItsTurn | src/watchdog/observers/api.py:384-386 | each called handler was registered for the watch just before its call, after the edits of the earlier callbacks; the final map is the result of all those edits |
| Delivery.DeliverSnoc | src/watchdog/observers/api.py:384-386 | a handler appended to the snapshot is called exactly when it is registered in the map the earlier callbacks left, and its callback then edits that map |
| Delivery.CalledIffRegisteredAtItsTurn | src/watchdog/observers/api.py:384-386 | the j-th snapshot handler is called exactly when it is still registered for the watch after the earlier calls' edits (both directions) |
| Delivery.UndisturbedHandlerIsCalled | src/watchdog/observers/api.py:384-386 | a snapshot handler that no callback unregisters is called |
| Delivery.RemovedHandlerIsSkipped | src/watchdog/observers/api.py:384-386 | a handler that the callbacks unregister can only be called first, before any callback ran |
| Delivery.NotCalledWhileUnregistered | src/watchdog/observers/api.py:385 | a handler that is unregistered and stays unregistered is never called |
| Delivery.DeliverWithoutEditsCallsAll | src/watchdog/observers/api.py:384-386 | when no callback edits the map, every snapshot handler is called in order and the map is unchanged |
| Delivery.DeliverKeepsEntries | src/watchdog/observers/api.py:384-386 | callbacks that only add or remove handlers leave every handler entry in place |
| Observers.ListOf | src/watchdog/observers/api.py:384 | the list has every member of the set exactly once |
| Observers.BaseObserver.constructor | src/watchdog/observers/api.py:220-227 | a new observer is not alive, has an empty registry and an empty queue, and satisfies the invariant |
| Observers.BaseObserver.RegisterEmitter | src/watchdog/observers/api.py:229-231 | the registry becomes `AddEmitter` of the old one |
| Observers.BaseObserver.RemoveAndStopEmitter | src/watchdog/observers/api.py:233-238 | the emitter leaves both emitter structures, then is stopped and joined |
| Observers.BaseObserver.ClearEmitters | src/watchdog/observers/api.py:240-247 | every emitter is stopped before any is joined, each exactly once, and both emitter structures are emptied |
| Observers.BaseObserver.AddHandlerEntry | src/watchdog/observers/api.py:249-252 | the registry becomes `AddHandler` of the old one |
| Observers.BaseObserver.StartInOrder | src/watchdog/observers/api.py:263-268 | the emitters started are exactly those listed before index `k`, the first one that fails (or all); the failing one and those after it are untouched |
| Observers.BaseObserver.Start | src/watchdog/observers/api.py:262-269 | success starts every emitter and the observer; otherwise the first failing emitter is removed, stopped and joined, the emitters started before it stay running, the rest are untouched, and StartError is raised; an observer already alive cannot start again |
| Observers.BaseObserver.Schedule | src/watchdog/observers/api.py:298-309 | the watch is returned and the registry becomes `Schedule` of the old one, with a new emitter only for a new watch, started only when the observer is alive; when that start raises, only the handler entry is added |
| Observers.BaseObserver.NewEmitter | src/watchdog/observers/api.py:304-306 | the new emitter is bound to the queue, watch and filter, and is started exactly when the observer is alive |
| Observers.BaseObserver.AddHandlerForWatch | src/watchdog/observers/api.py:326-327 | never fails; the registry becomes `AddHandler` of the old one and the invariant holds |
| Observers.BaseObserver.RemoveHandlerForWatch | src/watchdog/observers/api.py:344-345 | KeyError with nothing changed when `RemoveHandler` fails; otherwise the registry becomes its result |
| Observers.BaseObserver.Unschedule | src/watchdog/observers/api.py:356-360 | KeyError with nothing changed when the watch has no emitter; otherwise the registry becomes `Unschedule` of the old one, that emitter is stopped and joined, and no other emitter changes |
| Observers.BaseObserver.UnscheduleAll | src/watchdog/observers/api.py:366-369 | all four structures are emptied and every emitter is stopped before any is joined |
| Observers.BaseObserver.CallHandlers | src/watchdog/observers/api.py:384-386 | the calls made and the final handler map are those of `Deliver` |
| Observers.BaseObserver.DispatchTo | src/watchdog/observers/api.py:384-386 | the snapshot is the watch's handler set at entry, and the calls and final map are those of `Deliver` over it |
| Observers.BaseObserver.DispatchEvents | src/watchdog/observers/api.py:374-387 | the last entry put and the put history are kept, so the next put is filtered as before; an empty queue changes nothing; the stop sentinel is consumed with no handler call and no `task_done`; an event entry is delivered by `Deliver` over the snapshot and then marked done once |

## Left out

- Threads, the `RLock`, the emitter and dispatcher run loops and `BaseThread` are not modelled. The lock only serialises the operations, so each operation is a sequential method.
- Thread `join` and the suppression of its `RuntimeError` appear only as a `JoinEmitter` entry in the call trace.
- `EventDispatcher.stop`, `on_thread_stop` and the best-effort `put_nowait` of the stop sentinel are not modelled. The sentinel is modelled only as an entry that `dispatch_events` consumes.
- Blocking queue behaviour and timeouts are not modelled. A `get` on an empty queue, which would block, is the `Waiting` outcome with nothing changed.
- Timeout values are floating-point seconds that are passed through untouched. They are not modelled.
- The skip-repeat queue's implementation in `watchdog/utils/bricks.py` is not part of this model. Only its documented rule is modelled: an entry equal to the last one enqueued is dropped. Any reset of that comparison when an entry is taken is not modelled.
- Platform emitters and the `queue_events` hook are foreign OS calls and are not modelled. An emitter's start hook that raises is a parameter (`hookRaises`, `startRaises`, the `failing` set).
- `ObservedWatch.__repr__` is diagnostic formatting only and is not modelled.
- `handler.dispatch` is opaque: a `Reaction` on the handler map plus a `HandlerDispatch` trace entry.
- Exceptions raised by handlers are not modelled. They would propagate out of `dispatch_events` before `task_done`.
- Callbacks that call `schedule`, `unschedule` or `unschedule_all` are not modelled. A `Reaction` may only add or remove handlers (`KeepsEntries`).
- `_remove_handlers_for_watch` is not modelled separately. `unschedule` deletes the entry directly, as the code does.
- The `emitters` property is not modelled; it only returns the `_emitters` field.
- Set iteration order, in `start`, `_clear_emitters` and the handler snapshot, is arbitrary. Proofs hold for every order.
- `Path` normalisation is not modelled. A path object is represented by its string form.
- The module-level read of `sys.platform` is not modelled. The platform string is a parameter.
- `tests/utils.py` is not part of this model. It drives real emitters, queues with timeouts and threads.
- Observers.BaseObserver.Valid: the queue's own invariant (`EventQueue.Valid`) is kept apart from the observer invariant. It is required and ensured only by the members that use the queue, because the emitters share that object.
