# go-store `Writable`: a Dafny model of the observable value cell

go-store provides `Writable[T]`: a value plus a set of subscriber callbacks.
Every change to the value is announced to the subscribers. The repository holds
three variants of this cell side by side:

- **writable.go** is the cell with a skip policy. `Set(v)` does nothing when `v`
  equals the current value under `eqIgnorePtr`. Otherwise it stores `v` and calls
  every callback with it. `Update(f)` is `Set(f(value))`. `Subscribe` registers the
  callback under an id taken from a per-cell counter and returns an unsubscriber.
- **subscribers.go** is a dispatcher loop. It owns the registry and executes
  `Add(id, fn)`, `Remove(id)` and `Callback` commands in queue order. It returns
  right after a `Remove` that leaves the registry empty. Each `Remove` and each
  `Callback` is acknowledged through a wait group.
- **main.go** is the original lock-free store. Its `Set` always assigns and
  notifies, and its subscriber ids come from a UUID generator.

Each variant is modelled as a deterministic state machine made of pure transition
functions. Callbacks are never run. A call `fn(v)` is recorded as a delivery of `v`
to the callback's registry id. One pass over the registry, a Go
`for _, fn := range subscribers`, becomes one `Notify.Round`: a value and a
multiset of recipient ids. Go's map iteration order is unspecified, so a round
records who received the value, and how often, but not in what order. Rounds are
kept in the order they happen, and `Notify.ReceivedBy` gives the sequence of values
one subscriber sees.

The modules are:

- `Notify` (notify.dfy): rounds, broadcast and the per-subscriber view.
- `Values` (values.dfy): Go values as the skip policy sees them. A value is either
  plain data, compared structurally like `reflect.DeepEqual`, or a pointer
  (`Kind() == reflect.Pointer`).
- `Writable` (writable.dfy): the cell of writable.go, and runs of calls on it.
- `WritableScenarios` (writable_scenarios.dfy): the three sequential tests of
  writable_test.go, replayed on the model.
- `Subscribers` (subscribers.dfy): the dispatcher of subscribers.go. It has its own
  state record holding the registry, the running flag, the number of
  acknowledgements and the cell's current value. It needs its own record because the
  fields that file uses (`subCh`, `wg`, `isRunning`) are not part of the struct in
  writable.go.
- `SimpleStore` (main_store.dfy): the store of main.go.

`newSubAdd`, `newSubRemove` and `newSubCallback` are the three constructors of
`Subscribers.Command`.

Three facts about the code shape the model:

- A skipped `Set` in writable.go returns before it assigns (writable.go:26-28), so the
  cell is left exactly as it was.
- Neither `Subscribe` calls the new subscriber with the current value
  (writable.go:48-53, main.go:28-30).
- The unsubscriber of writable.go deletes its entry directly under the lock
  (writable.go:54-58).

## Model

| member | source | states |
|---|---|---|
| Notify.Broadcast | writable.go:35-37 | ranging over the registry delivers the value once to every registered id and to no other id |
| Notify.RangeBroadcast | subscribers.go:70-74 | the range loop visits the registered ids in an order it does not control and still calls each one exactly once: the result is the broadcast round |
| Values.EqIgnorePtr | writable.go:61-73 | the skip policy calls two values equal only if they really are equal; it never calls a pointer equal, not even to itself; it calls a plain value equal to an identical one (see the `reflect.DeepEqual` line under Left out for the Go values where that fails) |
| Writable.New | writable.go:15-22 | a new cell holds the given value and has no subscribers; its counter is valid (no registered id at or above it) |
| Writable.Set | writable.go:24-39 | a value equal under the skip policy leaves the cell unchanged and is delivered to nobody; any other value becomes the value and is delivered once to each registered subscriber and to no one else; registry and counter are unchanged |
| Writable.Update | writable.go:41-46 | a plain result equal to the current value changes nothing and delivers nothing; a pointer result or a different result becomes the value and is delivered once to each subscriber |
| Writable.Subscribe | writable.go:48-53 | the callback is registered under the counter's value and the counter is then incremented by exactly one; other entries and the value are unchanged; in a valid cell the id was not registered before |
| Writable.Unsubscribe | writable.go:54-58 | the unsubscriber removes its own id and leaves every other entry, the value and the counter as they were; when the id is already gone it changes nothing |
| Writable.SubscribeThenUnsubscribe | writable.go:48-58 | subscribing and then unsubscribing restores the cell, except that the id stays spent |
| Writable.UnsubscribeIdempotent | writable.go:54-58 | calling an unsubscriber twice has the effect of calling it once |
| Writable.SetTwice | writable.go:24-39 | after a `Set`, the cell holds the value; a second `Set` of the same plain value delivers nothing; a second `Set` of the same pointer delivers it again, once |
| Writable.Perform | writable.go:24-58 | one call on the cell: exactly a `Subscribe` hands out an id, and that id is the counter, which moves up by one; every kind of call keeps the cell valid |
| Writable.Run | writable.go:48-53 | over any sequence of calls, the ids handed out are consecutive counter values, so they strictly increase; the cell stays valid |
| Writable.IssuedIdsAreFresh | writable.go:49-52 | no id is handed out twice in a run, and none equals an id that was registered before the run |
| Writable.SpentIdReceivesNothing | writable.go:49-58 | an id that was handed out and is no longer registered is delivered nothing by any later sequence of calls |
| Writable.UnsubscribeIsFinal | writable_test.go:36-39 | after its unsubscriber has run, a subscriber receives nothing from any later calls |
| Writable.SubscriberReceivesEveryCommit | writable.go:24-39 | over a run of `Set` calls, a subscriber that stays registered receives exactly the values the skip policy lets through, once each and in call order |
| Writable.PointersAreNeverSkipped | writable.go:65-68 | with pointer values every `Set` is let through, even one that repeats the pointer already held |
| WritableScenarios.IntScenario | writable_test.go:10-40 | the integer test: the subscriber receives 2 and then 4, and nothing after unsubscribing |
| WritableScenarios.StructScenario | writable_test.go:42-101 | the struct test: an update that rebuilds the held struct delivers nothing; the three real changes are each delivered once |
| WritableScenarios.PointerScenario | writable_test.go:103-164 | the pointer test: every update that hands back the held pointer is delivered, four deliveries in all, and nothing after unsubscribing |
| Subscribers.Add | subscribers.go:53-55 | `subAdd` maps the id to the callback and leaves every other key, the running flag and the acknowledgement count unchanged |
| Subscribers.Remove | subscribers.go:57-67 | `subRemove` deletes the id and nothing else; it acknowledges exactly once; it returns stop exactly when the registry is now empty, and then the dispatcher is no longer running |
| Subscribers.Callback | subscribers.go:69-76 | `subCallback` delivers the dispatcher's current value once to each registered id and to no other, leaves the registry alone and acknowledges once |
| Subscribers.Execute | subscribers.go:40-49 | one pass of the loop's switch: only a removal that empties the registry stops it, only a callback delivers, and an addition is the one command not acknowledged |
| Subscribers.Controller | subscribers.go:38-51 | the loop takes commands in queue order; it either consumes the whole queue with the running flag untouched, or it stops on a removal and leaves the registry empty and the dispatcher stopped; every round carries the current value |
| Subscribers.ControllerStopsOnEmptyingRemove | subscribers.go:43-46 | when the loop returns, the last command it took is a removal that left the registry empty |
| Subscribers.ControllerRunsUntilFirstEmptyingRemove | subscribers.go:39-50 | no command before the one that ends the loop is a removal that empties the registry, and if the queue ran out none was: the loop stops at the first such removal and nowhere else |
| Subscribers.ControllerFollowsQueue | subscribers.go:39-76 | after the loop, the registry is what the processed commands do to it in order; there is one acknowledgement per processed removal or callback and none per addition; there is one round per processed callback, delivered to the registry as it stood then |
| Subscribers.ControllerContinues | subscribers.go:38-51 | a queue the loop consumes without stopping hands over to whatever is queued behind it: the outcome on the joined queue is the first outcome followed by the second, run from where the first left the dispatcher |
| Subscribers.LaterCommandsIgnored | subscribers.go:43-46 | once a removal has stopped the loop, commands queued after it make no difference |
| Subscribers.BothSubscribersAdded | subscribers.go:40-55 | two additions and a callback: the loop keeps running, holds both ids, acknowledges once and delivers to both |
| Subscribers.SecondSubscriberLeavesLast | subscribers.go:40-76 | with two subscribers: a removal, a callback to the remaining one, then its removal stops the loop after three commands, leaving the last callback unprocessed |
| Subscribers.TwoSubscribersScenario | subscribers.go:38-76 | two subscribers added, a callback, one removed, a callback, the other removed: the loop stops after six commands with four acknowledgements, delivering to both and then to the remaining one, and never runs the last callback |
| SimpleStore.New | main.go:12-15 | a new store holds the given value and has no subscribers |
| SimpleStore.Set | main.go:17-22 | `Set` always assigns, even an equal value, and delivers it once to each registered subscriber and to no one else |
| SimpleStore.Update | main.go:24-26 | `Update` assigns the updater's result and delivers it once to each subscriber, as `Set` of that result |
| SimpleStore.Subscribe | main.go:28-30 | the callback is registered under the generated id; other entries and the value are unchanged; a fresh id grows the registry by one |
| SimpleStore.Unsubscribe | main.go:31-33 | the unsubscriber deletes only its own id; when the id is already gone it changes nothing |
| SimpleStore.SubscribeThenUnsubscribe | main.go:28-33 | with a fresh id, the unsubscriber restores the store exactly |
| SimpleStore.SetNeverSkips | main.go:17-22 | setting the value already held still reaches a registered subscriber |
| SimpleStore.SetAll | main.go:17-22 | after a run of `Set` calls the store holds the last value set, with the registry unchanged and one round per call |
| SimpleStore.EverySetIsDelivered | main.go:17-22 | a registered subscriber receives every value set, once each and in order; an unregistered id receives nothing |

## Left out

- The `sync.RWMutex` locking in writable.go, and the goroutine, `subCh` channel and
  blocking `WaitGroup` of subscribers.go. They only serialise the transitions the
  model performs one at a time. Of the wait group, only the count of `Done` calls is
  kept, as `acks`.
- Orderings that racing callers can produce, including the concurrent stress test
  at writable_test.go:166-199. A run of calls in the model is one particular
  interleaving.
- What callbacks do. Callbacks are opaque values and are never invoked. This also
  leaves out a callback that panics, and aliasing through data shared with a
  callback.
- Values.EqIgnorePtr: `reflect.DeepEqual` on values that are not pointers is modelled
  as structural equality, which is reflexive. Go's `DeepEqual` is not: a NaN float, a
  non-nil func value, and a struct or array holding either never equal themselves.
  For such a `T`, writable.go:26 never skips and every `Set` notifies, while the
  model skips a repeated value. The same caveat applies to the plain case of
  `Writable.SetTwice`. Slices and maps, which share storage without being of pointer
  kind, are also not distinguished from other plain values, so in-place mutation
  through them is not modelled.
- What a pointer points to. A pointer is modelled by its address alone, because the
  skip policy never compares pointees.
- `uuid.New()` in main.go. `SimpleStore.Subscribe` takes the generated id as a
  parameter, and freshness appears as a hypothesis in its contract.
- Writable.Subscribe: the counter is an unbounded integer. Go's `int` would wrap
  after 2^63 subscriptions, and the model ignores that.
- The dispatcher's value does not change while the loop runs. The model has no
  command that writes the cell's value between two commands. A `Callback` still reads
  the dispatcher's current value and carries none of its own.
- Commands queued after the removal that stops the loop. The model says only that
  they are never processed (`Subscribers.LaterCommandsIgnored`). What happens to
  their senders depends on how `subCh` is created, and subscribers.go does not
  create it.
- Writable.Update: updaters are total functions. In writable.go:42-44 the updater
  runs with the write lock held and no `defer`, so an updater that panics leaves the
  lock held, and every later call on the cell blocks. In main.go:25 a panicking
  updater propagates before anything is assigned or delivered. Neither path is
  modelled.
