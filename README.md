# Iot.Device.Subscriptions in Dafny

This project models the subscription multiplexer of `Iot.Device.Subscriptions`
and its stopwatch example. An application registers (pin, mode, edge type)
subscriptions on a `SubscriptionCollection`, optionally enables a periodic
clock, and builds a `SubscriptionService`. Running the service opens each
distinct pin once and keeps a pool with one pending wait per subscription,
plus one for the clock. It then repeatedly yields a `SubscriptionEvent` for
whichever wait completes first and re-arms that wait. The stopwatch example
builds its service from up to three buttons (reset, pause, stop). Its loop
adds clock deltas to an elapsed-ticks counter, zeroes it on reset, toggles a
pause flag, and exits on stop.

Files:

- `gpio.dfy` (module `Gpio`): the value types the library consumes (pin
  modes, edge kinds, wait results, ticks per millisecond) and the `Error` /
  `Result` pair that models the thrown exceptions.
- `subscription.dfy` (modules `Subscriptions`, `Events`): the validating
  `Subscription` constructor, the mutable list object, and `SubscriptionEvent`
  with its `IsClock` test (pin number `-1`).
- `registry.dfy` (module `Registry`): `SubscriptionCollection`, a class whose
  `Subscribe`/`Unsubscribe` mutate its list in place. Each is proved against
  a pure function of the old list (`AfterSubscribe`, `AfterUnsubscribe`).
  The file also holds the invariant those operations keep, and `Build`,
  which hands the live list object to the service.
- `service.dfy` (module `Service`): `SubscriptionService`. Covers the pin
  opening, the wait pool (`BuildWaitPool`), and one loop iteration as the
  function `Step` with its `Trace` over many iterations. The `RunEnumerator`
  class holds the loop's variables as fields; its `MoveNext` is proved
  against `Step`.
- `stopwatch.dfy` (module `Stopwatch`): `BuildSubscriptions` of the example
  program, and its event loop as the function `Loop` and the method
  `RunLoop`.

The wall clock (`DateTime.Now.Ticks`), the choice of which pending wait
completes first (`Task.WhenAny`), the result of a pin wait, and the
cancellation flag come from the environment. They are parameters of each
step (`StepInput`), so every property holds for every schedule. `GpioController.OpenPin` is
modelled as an append to a log of opened pins. Time values are ticks
(100 ns) held in unbounded `int`s.

Behaviour the model keeps as the code has it:

- `Build` passes the collection's own list object to the service; nothing is
  copied. A `Subscribe` after `Build` is seen by the service when its run
  starts (`Registry.SubscribeAfterBuild`).
- The clock reading for a step is taken at the top of the iteration, before
  waiting. A clock event's delta runs from the reading of the iteration in
  which the previous clock wait completed (or from setup, for the first) to
  the reading of the iteration in which this one completes. When pin events
  are handled in between, that iteration starts after the last pin event,
  not when the clock wait began, so any clock delta can be smaller than the
  rate. For a clock-only service the first delta is the time from setup to
  the top of the first iteration, 0 if read at once
  (`Service.FirstClockDeltaIsTakenBeforeWait`).
- The clock rate is not validated when it is set. A rate that `Task.Delay`
  rejects makes the clock's task fault. Awaiting it after the re-arm ends the
  sequence with that error at the first clock completion
  (`Service.RejectedClockRateFaults`).
- `Run` is an async iterator: nothing, not even opening the pins, happens
  before the first pull.
- A button pin of `-1` means "not used", but the loop still compares event
  pin numbers with it. A stop pin of `-1` ends the loop at the first clock
  event, and a reset pin of `-1` keeps the clock at zero.
- A collection with no subscriptions and no clock has an empty pool; the
  first iteration then faults (`Task.WhenAny` over no tasks; `Service.Step`).

## Model

| member | source | states |
|---|---|---|
| Subscriptions.NewSubscription | Source/Iot.Device.Subscriptions/Subscription.cs:9-24 | succeeds exactly when the pin is non-negative and the mode is not Output; a negative pin is reported first, then Output; on success the fields are the arguments |
| Events.NewEventStoresArguments | Source/Iot.Device.Subscriptions/SubscriptionEvent.cs:12-19 | the event stores its three arguments unchecked, and it is a clock event exactly when the pin number is -1 |
| Events.SubscribedPinIsNotClock | Source/Iot.Device.Subscriptions/SubscriptionEvent.cs:12 | no pin a valid subscription can name yields a clock event |
| Registry.AfterSubscribe | Source/Iot.Device.Subscriptions/SubscriptionCollection.cs:25-45 | each error in guard order (Output mode, duplicate pair, mode conflict, negative pin); on success the list is the old one with the new entry appended |
| Registry.SubscribeSucceedsIffInvariantKept | Source/Iot.Device.Subscriptions/SubscriptionCollection.cs:27-42 | on a list with valid entries, unique (pin, edge) pairs and one mode per pin, Subscribe succeeds exactly when the appended list keeps all three |
| Registry.SubscribePreservesInvariant | Source/Iot.Device.Subscriptions/SubscriptionCollection.cs:27-42 | a successful Subscribe keeps that invariant |
| Registry.DuplicateReportedBeforeConflict | Source/Iot.Device.Subscriptions/SubscriptionCollection.cs:32-40 | re-subscribing an existing pair under another mode reports a duplicate, not a conflict |
| Registry.AfterUnsubscribe | Source/Iot.Device.Subscriptions/SubscriptionCollection.cs:48-59 | the failure is not-found for the pair; on success exactly one entry of the old list is removed |
| Registry.FirstMatch | Source/Iot.Device.Subscriptions/SubscriptionCollection.cs:50 | the index found is the first entry with the pair, or the length when none has it |
| Registry.UnsubscribeOutcome | Source/Iot.Device.Subscriptions/SubscriptionCollection.cs:48-59 | fails with not-found exactly when no entry has the pair; otherwise removes one entry with the pair and keeps the rest in order; under unique pairs none with the pair remains |
| Registry.UnsubscribePreservesInvariant | Source/Iot.Device.Subscriptions/SubscriptionCollection.cs:48-59 | a successful Unsubscribe keeps the invariant |
| Registry.SubscribeThenUnsubscribe | Source/Iot.Device.Subscriptions/SubscriptionCollection.cs:25-59 | Unsubscribe undoes a successful Subscribe of the same pair |
| Registry.SubscriptionCollection.constructor | Source/Iot.Device.Subscriptions/SubscriptionCollection.cs:13-22 | a fresh empty list, the clock disabled, the rate 500 ms |
| Registry.SubscribedTripleReadOnce | Source/Iot.Device.Subscriptions/SubscriptionCollection.cs:19-42 | after a successful Subscribe the list read back holds the new (pin, mode, event) entry exactly once and every other entry as often as before |
| Registry.SubscriptionCollection.Subscribe | Source/Iot.Device.Subscriptions/SubscriptionCollection.cs:25-45 | the list becomes AfterSubscribe of the old list and the collection is returned, or the error is returned and the list is unchanged; the invariant is kept |
| Registry.SubscriptionCollection.Unsubscribe | Source/Iot.Device.Subscriptions/SubscriptionCollection.cs:48-60 | the list becomes AfterUnsubscribe of the old list, or the error is returned and the list is unchanged; the invariant is kept |
| Registry.SubscriptionCollection.Build | Source/Iot.Device.Subscriptions/SubscriptionCollection.cs:63-66 | a new service that holds this collection's own list object and its current clock settings |
| Registry.SubscribeAfterBuild | Source/Iot.Device.Subscriptions/SubscriptionCollection.cs:63-66 | a Subscribe made after Build is visible through the built service's list |
| Service.SubscriptionService.New | Source/Iot.Device.Subscriptions/SubscriptionService.cs:30-35 | fails with the null-argument error exactly when the list is null; otherwise keeps the list by reference and the clock settings |
| Service.FirstPinIndex | Source/Iot.Device.Subscriptions/SubscriptionService.cs:40-43 | the index of the first subscription on a pin, and no earlier entry has that pin |
| Service.PinsToOpen | Source/Iot.Device.Subscriptions/SubscriptionService.cs:40-43 | setup opens at most one pin per subscription, and a non-empty list opens its first subscription's pin, with that subscription's mode, first |
| Service.PinsToOpenCoversEachPinOnce | Source/Iot.Device.Subscriptions/SubscriptionService.cs:40-43 | setup opens a pin exactly when some subscription names it, and opens no pin twice |
| Service.PinsToOpenUsesFirstSubscription | Source/Iot.Device.Subscriptions/SubscriptionService.cs:40-43 | each pin is opened with the mode of its first subscription, in order of first appearance |
| Service.InitialPool | Source/Iot.Device.Subscriptions/SubscriptionService.cs:74-90 | entry i waits on subscription i's pin and edge under its pin's tag; the clock entry, tagged -1 with the configured rate, follows when enabled |
| Service.InitialPoolShape | Source/Iot.Device.Subscriptions/SubscriptionService.cs:74-90 | the pool has one entry per subscription plus one clock entry when enabled; its tags are the subscriptions' pins plus -1 once when enabled; its waits are each subscription's pin on its edge plus the clock's delay when enabled; it is well formed |
| Service.Step | Source/Iot.Device.Subscriptions/SubscriptionService.cs:48-67 | one iteration opens no pin and keeps the pool's size; it yields an event exactly when the sequence goes on, and the event's pin is the completed entry's tag; an empty pool faults and ends the sequence |
| Service.RemoveAt | Source/Iot.Device.Subscriptions/SubscriptionCollection.cs:57 | removing one entry keeps the others in their order and takes exactly that entry's one copy out of the multiset |
| Service.StepKeepsPool | Source/Iot.Device.Subscriptions/SubscriptionService.cs:53-56 | re-arming keeps the pool's size, its multiset of tags, its multiset of waits (the completed entry's own pin and edge, or its own delay) and its well-formedness, and opens no pin |
| Service.StepEvent | Source/Iot.Device.Subscriptions/SubscriptionService.cs:50-67 | the event carries the completed entry's tag; a pin event has delta 0 and keeps the timestamp; a clock event's delta is the reading minus the timestamp and moves the timestamp; a clock result reports no edge and a time-out; a clock entry whose delay is rejected ends the sequence with that error, after the re-arm and the timestamp update |
| Service.CancelledStepEmitsNothing | Source/Iot.Device.Subscriptions/SubscriptionService.cs:48 | once cancellation is requested or the sequence ended, a step yields nothing and changes only the end flag |
| Service.Trace | Source/Iot.Device.Subscriptions/SubscriptionService.cs:48-68 | one outcome per iteration; the pool keeps its size and no pin is opened during the loop |
| Service.TraceKeepsPool | Source/Iot.Device.Subscriptions/SubscriptionService.cs:53-56 | over any number of iterations, the pool keeps its multisets of tags and of waits and stays well formed |
| Service.StepTiming | Source/Iot.Device.Subscriptions/SubscriptionService.cs:50-63 | one iteration read no earlier than the timestamp moves the timestamp at most up to the reading, and a clock event's delta is non-negative |
| Service.TraceTiming | Source/Iot.Device.Subscriptions/SubscriptionService.cs:45-65 | with readings that never go backwards, the timestamp never decreases and stays at most the last reading, and every clock delta is non-negative |
| Service.RunKeepsSubscriptions | Source/Iot.Device.Subscriptions/SubscriptionService.cs:46-56 | from setup, after any number of iterations, the pool's tags are the subscriptions' pins plus exactly one -1 when the clock is enabled, and its waits are exactly one per subscription, on that subscription's pin and edge, plus one for the configured delay when the clock is enabled |
| Service.EndedIsFinal | Source/Iot.Device.Subscriptions/SubscriptionService.cs:48 | after the step that observes cancellation, every later step ends the sequence |
| Service.FirstClockDeltaIsTakenBeforeWait | Source/Iot.Device.Subscriptions/SubscriptionService.cs:50-53 | a clock-only service read at its setup time yields a first clock event with delta 0, whatever accepted rate it has |
| Service.RejectedClockRateFaults | Source/Iot.Device.Subscriptions/SubscriptionService.cs:53-67 | a clock rate that the clock task's Task.Delay (lines 92-97) rejects ends the sequence with the out-of-range error at the first clock completion, and later pulls end it |
| Service.SubscriptionService.Run | Source/Iot.Device.Subscriptions/SubscriptionService.cs:38-69 | no pin is opened unless the sequence is pulled; otherwise the first pull opens the pins of PinsToOpen over the list as it is then, and the outcomes are the Trace from the initial state |
| Service.RunEnumerator.Start | Source/Iot.Device.Subscriptions/SubscriptionService.cs:40-46 | the state after setup is the initial state: pins opened, timestamp sampled, pool built |
| Service.RunEnumerator.BuildWaitPool | Source/Iot.Device.Subscriptions/SubscriptionService.cs:74-90 | the pool becomes InitialPool of the current list and clock settings |
| Service.RunEnumerator.MoveNext | Source/Iot.Device.Subscriptions/SubscriptionService.cs:48-67 | the new state and the outcome are those of Step on the old state |
| Stopwatch.SubscribeAll | Source/Iot.Device.Subscriptions.StopwatchExample/Program.cs:116-127 | a successful chain keeps the existing entries and appends one rising-edge entry per pin, in order |
| Stopwatch.SubscribeAllOutcome | Source/Iot.Device.Subscriptions.StopwatchExample/Program.cs:116-127 | a chain of rising-edge subscriptions with a non-Output mode succeeds exactly when its pins are distinct and new; on success it appends one entry per pin in order; otherwise it fails as a duplicate |
| Stopwatch.ButtonsOutcome | Source/Iot.Device.Subscriptions.StopwatchExample/Program.cs:109-130 | the buttons' subscriptions succeed exactly when the enabled pins are distinct (or none is enabled), giving one rising-edge entry each; the Output mode fails at the first enabled button |
| Stopwatch.SubscribeButton | Source/Iot.Device.Subscriptions.StopwatchExample/Program.cs:116-119 | a disabled button leaves the list alone and returns the collection; an enabled one makes the list AfterSubscribe of the old list on a rising edge and returns the collection, or returns Subscribe's error with the list unchanged; the invariant is kept |
| Stopwatch.SubscribeAllButton | Source/Iot.Device.Subscriptions.StopwatchExample/Program.cs:116-119 | one button is one link of the chain: a disabled button is skipped; an enabled one ends the chain with Subscribe's error or continues it from the list Subscribe returns |
| Stopwatch.SubscribeButtons | Source/Iot.Device.Subscriptions.StopwatchExample/Program.cs:115-127 | the reset, pause and stop blocks in that order fail exactly when the chain over the enabled buttons fails, with its error; otherwise the list is the chain's list |
| Stopwatch.BuildSubscriptions | Source/Iot.Device.Subscriptions.StopwatchExample/Program.cs:109-130 | the result fails exactly when the chain over the enabled buttons fails, with the same error; otherwise the service's list is the chain's list and the clock is enabled at the configured rate |
| Stopwatch.Handle | Source/Iot.Device.Subscriptions.StopwatchExample/Program.cs:44-62 | a clock event adds its delta unless paused; the reset wins over the same event's accumulation; the pause button flips the flag; the loop exits exactly on the stop button |
| Stopwatch.Loop | Source/Iot.Device.Subscriptions.StopwatchExample/Program.cs:40-62 | the loop has exited exactly when some event offered to it is the stop button's |
| Stopwatch.PauseTwiceRestores | Source/Iot.Device.Subscriptions.StopwatchExample/Program.cs:54-57 | two pause events restore the pause flag |
| Stopwatch.StopIsFinal | Source/Iot.Device.Subscriptions.StopwatchExample/Program.cs:59-62 | after the stop event, later events change nothing |
| Stopwatch.ClockSumsDeltas | Source/Iot.Device.Subscriptions.StopwatchExample/Program.cs:40-47 | without button events, the clock is the sum of the clock events' deltas |
| Stopwatch.StopAtMinusOneExitsOnFirstTick | Source/Iot.Device.Subscriptions.StopwatchExample/Configuration.cs:88 | with the stop button unused (-1), the loop exits at the first clock event |
| Stopwatch.ResetAtMinusOneKeepsClockZero | Source/Iot.Device.Subscriptions.StopwatchExample/Configuration.cs:68 | with the reset button unused (-1), the clock stays 0 |
| Stopwatch.RunLoop | Source/Iot.Device.Subscriptions.StopwatchExample/Program.cs:40-62 | the loop's clock and pause flag equal Loop over the events consumed, which equals Loop over all events; it stops at the first stop button's event, which it consumes, and only there |

## Left out

- Asynchrony: the async enumerator, `await` and the tasks themselves are not modelled. Task identity is replaced by an operation number per pool entry, and the builder delegates by a `Builder` value.
- The clock reading, which wait completes first, the pin wait results and cancellation are step inputs, not computed.
- Cancellation observed by a pending `WaitForEventAsync` or `Task.Delay`, which throws out of the loop, is not modelled. Cancellation is only the flag tested at the top of the loop.
- The `GpioController`: `OpenPin` is a log entry. The controller's own errors (a pin already open, a wait on an unopened pin) are not modelled.
- `long` ticks and `TimeSpan`: values are unbounded integers, and 64-bit wrap-around of the timestamp, the delta and the clock is not modelled.
- `PinEventTypes` is a flags enumeration; only its four combinations of the two defined bits are modelled.
- `Subscriptions` returns a read-only view of the list; it is the plain sequence here.
- The stopwatch program's configuration loading, I2C/LCD set-up, display writes and `StopwatchController` are not part of this model. `Configuration.cs` appears only as the "pin above -1" enable test.
- Registry.SubscriptionCollection.Subscribe, Registry.SubscriptionCollection.Unsubscribe: these require the collection's invariant (valid entries, unique pairs, one mode per pin). Every collection satisfies it from construction, because only these two operations change the list. Direct changes through the aliased list are not modelled.
- The constructor's documentation calls the clock rate the minimum delay between clock events. The code measures each delta between readings taken at the tops of iterations, so any clock delta can be smaller than the rate when pin events come between clock completions. The model follows the code.
- `Task.Delay`'s range check is modelled by its documented rule for .NET 6 and later: -1 ms, or 0 up to 4294967294 ms. Earlier runtimes cap at `Int32.MaxValue` ms, and sub-millisecond rounding is not modelled.
- A clock rate of exactly -1 ms makes the clock wait forever. The model does not stop the environment from naming the clock entry as the completed one.
- A built service does not take a snapshot of the subscriptions: the list is shared with the collection, and the model follows the code.
