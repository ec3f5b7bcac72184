# Pod chaos monkey: the disruption loop

This project models the core of `pod-chaos-monkey`, a resilience-testing agent
for Kubernetes. On every tick of a fixed period it lists the pods that match a
label selector, deletes one of them picked at random, and stops when its
context is cancelled or when the pod directory reports an error. The loop
exists twice in the repository with identical bodies: `PodDisruptor.Disrupt`
in `cli/internal/commands/disruptor.go` and `Saboteur.Havoc` in
`cli/internal/commands/monkeys/pods.go`. Each file also has a constructor that
rejects a negative period.

The files:

- `pods.dfy` (module `Pods`): the pod directory, the `DeleterLister` interface.
  A Go `error` is a value compared by identity. The replies to `List` and
  `Delete` are datatypes. `ScriptedClient` is a `DeleterLister` whose replies
  come from a script; it records every call and its reply in `log`. The
  script stands for any backend. Once it is used up, the client answers as
  the unit tests' doubles do when they have no callback: an empty list, and a
  successful delete.
- `disruption.dfy` (module `Disruption`): the loop, modelled once.
  - The `select` between `ctx.Done()` and `time.After(period)` becomes a
    sequence of `Event`s, `Done` or `Elapsed(roll)`. The caller supplies them,
    so any interleaving is possible. Go picks at random among ready cases, so
    a timer tick may still win after cancellation; the model allows that.
  - `rand.Intn(n)` is `Intn(n, roll)`.
  - `Tick` is the body of the timer case. `Run` is the whole loop as a state
    machine over the events.
  - `TickOnce` and `Loop` are the imperative loop against a `ScriptedClient`.
    Each is proved equal to `Tick` and `Run`.
  - `Outcome` has three cases: `ReturnedNil`, `ReturnedError(e)`, and
    `Running`. `Running` means the events ran out while the Go loop would
    still be waiting.
- `loop_properties.dfy` (module `LoopProperties`): what a whole run promises.
- `commands.dfy` (module `Commands`) and `monkeys.dfy` (module `Monkeys`): the
  two source files. Each has its own `NegativePeriodErr` sentinel. The two
  sentinels are distinct errors, as two `errors.New` values are in Go. Each
  file has a class holding the client and the period, and a factory that
  validates the period. `Disrupt` and `Havoc` both run `Disruption.Loop` and
  have the same contract in terms of `Disruption.Run`. This is how both files
  are shown to implement the one loop.
- `scenarios.dfy` (module `Scenarios`): the unit tests' scenarios as lemmas.
  Each lemma holds for every random roll and every later event.
- `wrappers.dfy` (module `Wrappers`): `Option`, for Go's nil-or-value results.

Go's `select` picks at random among the cases that are ready. So after
cancellation a tick may still list and delete, and a context that is already
cancelled returns with no call only when the `select` picks `Done` first
(`PreCancelledContext`).

## Model

| member | source | states |
|---|---|---|
| `Pods.ScriptedClient.List` | cli/internal/kubernetes/pods/client.go:15-18 | returns the directory's next listing reply, or an error, for the selector, and records the call with its reply |
| `Pods.ScriptedClient.Delete` | cli/internal/kubernetes/pods/client.go:10-13 | returns the directory's next delete reply for the named pod, and records the call with its reply |
| `Disruption.CheckPeriod` | cli/internal/commands/disruptor.go:23-25 | the guard fails exactly when the period is negative, and then its error is the package's `NegativePeriodErr`; zero and positive periods pass |
| `Disruption.Intn` | cli/internal/commands/disruptor.go:44 | the victim index is always inside the list `[0, n)`, and every index in that range can be drawn |
| `Disruption.Tick` | cli/internal/commands/disruptor.go:38-48 | one timer tick calls `List` first, with the caller's selector, and gets the directory's next listing. It calls `Delete` exactly when the list succeeded with at least one pod; the victim is one of those pods, and the call gets the directory's next delete reply. The tick consumes exactly those replies. It ends the loop exactly when its last call failed, and with that call's error. |
| `Disruption.TickOnce` | cli/internal/commands/disruptor.go:38-48 | the imperative timer case makes exactly the calls of `Tick`, leaves the client's script where `Tick` does, and returns `Tick`'s error |
| `Disruption.Loop` | cli/internal/commands/disruptor.go:33-51 | the imperative loop returns `Run`'s outcome, appends exactly `Run`'s calls to the client's log, and leaves the script where `Run` does |
| `LoopProperties.ListsUseSelector` | cli/internal/commands/disruptor.go:39 | every `List` call of a run receives the caller's selector unchanged |
| `LoopProperties.VictimComesFromLatestList` | cli/internal/commands/disruptor.go:43-45 | every `Delete` comes right after a successful `List`, and its victim is one of the pods that `List` returned |
| `LoopProperties.DeleteOnlyAfterNonEmptyList` | cli/internal/commands/disruptor.go:43-48 | a `List` that returns pods is followed by exactly one `Delete`. A failed or empty `List` is followed by no `Delete`: the next call, if any, is the next `List`. |
| `LoopProperties.ErrorsEndTheLoop` | cli/internal/commands/disruptor.go:39-47 | a failed `List` or `Delete` is the last call of the run, and the loop returns exactly its error. The loop returns an error only after such a call. |
| `LoopProperties.OutcomeFollowsEvents` | cli/internal/commands/disruptor.go:34-38 | a run makes one `List` per timer event it consumes, and only timer events lead to listing. Without a failed call, the loop returns nil exactly when the next event is `Done`, and it is still running exactly when every event was a tick. |
| `LoopProperties.PreCancelledContext` | cli/internal/commands/disruptor_test.go:147-157 | with an already-cancelled context and a directory with no callbacks, the loop returns nil whichever case the `select` picks, and never deletes. When `Done` is picked first, it returns nil before any call. |
| `LoopProperties.EmptyListsNeverDelete` | cli/internal/commands/monkeys/pods_test.go:106-141 | against a directory that lists no pods, the loop never deletes and never fails. It lists once per tick with the caller's selector until `Done`, and it returns nil exactly when a `Done` arrives. |
| `Commands.NewPodDisruptor` | cli/internal/commands/disruptor.go:22-30 | fails with `NegativePeriodErr` and no disruptor exactly when the period is negative. For zero and positive periods it returns no error and a new disruptor holding exactly the given client and period. |
| `Commands.PodDisruptor.constructor` | cli/internal/commands/disruptor.go:26-29 | the struct literal stores the client and period unchanged |
| `Commands.PodDisruptor.Disrupt` | cli/internal/commands/disruptor.go:33-51 | `Disrupt` returns `Run`'s outcome and makes exactly `Run`'s calls on its client |
| `Monkeys.NewSaboteur` | cli/internal/commands/monkeys/pods.go:22-30 | fails with the `monkeys` package's `NegativePeriodErr` and no saboteur exactly when the period is negative. For zero and positive periods it returns no error and a new saboteur holding exactly the given client and period. |
| `Monkeys.Saboteur.constructor` | cli/internal/commands/monkeys/pods.go:26-29 | the struct literal stores the client and period unchanged |
| `Monkeys.Saboteur.Havoc` | cli/internal/commands/monkeys/pods.go:33-51 | `Havoc` returns `Run`'s outcome and makes exactly `Run`'s calls on its client: the same loop as `Disrupt` |
| `Scenarios.DeletesPodTakenFromList` | cli/internal/commands/disruptor_test.go:60-90 | for any selector and roll, a one-pod listing, a successful delete, and then cancellation make the loop delete that pod and return nil, whatever events follow |
| `Scenarios.ListErrorIsReturned` | cli/internal/commands/disruptor_test.go:159-178 | a failing `List` on the first tick ends the loop with that very error, and no `Delete` is made |
| `Scenarios.DeleteErrorIsReturned` | cli/internal/commands/disruptor_test.go:180-208 | with one pod listed and a failing delete, the loop returns the delete's error after exactly one `List` and one `Delete` |

## Left out

- Timing: `time.After(period)` is abstracted into `Elapsed` events. The period is only validated and stored, and nothing in the model depends on its length.
- Context propagation: the context is not passed into `List` and `Delete`, so the model has no in-flight call aborting early. Each call completes with its scripted reply.
- Disruption.Intn: models only that the index is in range and that every index can be drawn. It does not model `rand.Intn`'s uniform distribution, a statistical property.
- The loop's unbounded repetition: a run is observed over a finite sequence of events. `Running` stands for "still looping". The model does not express liveness, for example that a cancelled context is eventually honoured.
- The Kubernetes service layer, `PodServiceLayer` in `cli/internal/kubernetes/pods/client.go`, is not part of this model. It wraps client-go calls that are not shown. Only its `DeleterLister` interface is modelled, by the scripted client.
- `cli/cmd/main.go` is not part of this model: flag parsing, clientset construction, OS signal handling, and the goroutine that runs the loop.
- Concurrency: the loop runs on its own goroutine beside the signal handler. The model is the sequential loop alone.
