# child-pool scheduler, modelled in Dafny

`lib/child-pool.js` runs units of work ("messages") on pools of forked worker
processes. Each pool forks workers on demand, up to its desired count. One
process-wide budget of active tasks covers every pool: `max(numCPUs, 2)`, minus one
slot in background mode. Work that cannot start at once waits in a single FIFO queue
shared by all pools. When a worker replies, the handler frees the worker and re-sends
the head of that queue. On the next tick it delivers the reply to the task's callback.
A fatal reply, or a death by an unexpected signal, kills and unlists the worker.

The model has these parts:

- `PoolModel` (pool_model.dfy) holds the whole scheduling state as one value. That is
  the module globals `queue`, `activeTasks`, `totalWorkers` and `isBackground`, plus the
  records of every pool and worker. It has one specification function per step:
  `Send`, `ForkWorker`, `Complete` (the immediate half of `processMessage`), `Tick`
  (its `process.nextTick` half), `Exit`, `SendAll`, `AddPool` and `SetBackground`.
- `PoolProperties` (pool_properties.dfy) proves what these steps guarantee: the
  structural invariant `Valid`, the admission rules, both completion halves, the crash
  observer and the active-task accounting `Balanced`.
- `ChildPool.Scheduler` (child_pool.dfy) is the imperative form. Its fields are the
  module globals and the records. Each method has `ensures Abs() == <Spec>(old(Abs()), …)`
  and keeps `Valid()`. `SendAll` keeps the source's loop.
- `ProfArgs` (prof_args.dfy) and `JsText` (js_text.dfy) model the `--prof` log-file
  rewrite that `fork()` performs, and the JavaScript string behaviour it needs.
- `Findings` (findings.dfy) covers three defects of the completion handler. Each has an
  as-written counterexample and a corrected definition. The corrected definitions are
  separate. `ChildPool.Scheduler` and `PoolModel` follow the source as written.

Processes are abstract, identified by their fork order (`WorkerId`). Sends to a
process are recorded in `deliveries`. Callback invocations and pool `error` events are
recorded in `outcomes`. A callback is a task id (`Supplied`), or the `Noop` that `send`
substitutes for a missing one. The CPU count and the scheduler's own `execArgv` are
constructor parameters.

Where the design description and the code disagree, the model follows the code:

- An exit with a non-null code never synthesizes an error. Only `code === null` with a
  signal other than `SIGKILL` does (line 117). So a worker exiting with code 1 mid-task
  produces no callback.
- The `error` event of a worker process is only logged (lines 134-137). It raises
  nothing on the pool.
- A reply for a worker without a callback emits the reply's own error if it has a truthy
  `err`. Only otherwise does it emit the "Out of band data" error (line 108).
- `msg.err`, `msg.stack` and `options.logId` are tested for truthiness, so an empty
  string counts as absent.

## Model

| member | source | states |
|---|---|---|
| `JsText.FindPrefixed` | lib/child-pool.js:47-49 | the position of the first argument matching `^--logfile=`, or none when no argument matches |
| `JsText.IndexOf` | lib/child-pool.js:50 | `indexOf`: -1 exactly when absent, otherwise the first position holding the value |
| `JsText.NatToString` | lib/child-pool.js:53-55 | a counter concatenated to a string gives non-empty decimal digits without a leading zero |
| `JsText.DecimalRoundTrip` | lib/child-pool.js:53-55 | reading those digits back gives the counter |
| `JsText.NatToStringInjective` | lib/child-pool.js:53-55 | distinct counters give distinct texts |
| `ProfArgs.UnprofiledArgsUnchanged` | lib/child-pool.js:43-44 | without `--prof` the worker gets the scheduler's arguments unchanged |
| `ProfArgs.LogFileRenamedInPlace` | lib/child-pool.js:47-58 | with `--prof`, the first `--logfile=` argument gets the suffix in place: same length, every other position unchanged |
| `ProfArgs.DefaultLogFileAppended` | lib/child-pool.js:47-61 | with `--prof` and no `--logfile=` argument, `--logfile=v8.log<suffix>` is appended |
| `ProfArgs.SuffixesDistinguishForks` | lib/child-pool.js:52-56 | the suffix `.<logId>.<poolCount>` or `.<globalCount>` differs between forks with different counters |
| `PoolModel.FirstIdle` | lib/child-pool.js:146-148 | `_.find` for a worker without a callback: an idle worker with none idle before it, or none when every worker is busy |
| `PoolModel.Admit` | lib/child-pool.js:145-161 | the admission decision names an idle worker whenever it reuses one |
| `PoolModel.Without` | lib/child-pool.js:104 | `_.without`: the list keeps exactly the other workers and never grows |
| `PoolModel.Broadcast` | lib/child-pool.js:29-33 | one delivery of the message to each listed worker, in list order |
| `PoolProperties.WithoutKeepsOrder` | lib/child-pool.js:104 | removing a worker listed once keeps the others in their order |
| `PoolProperties.InitialValid` | lib/child-pool.js:9-13 | the module's initial state satisfies the invariant and the accounting |
| `PoolProperties.AddPoolValid` | lib/child-pool.js:15-26 | a new pool has no workers, its desired count defaults to the CPU count, and the invariant holds |
| `PoolProperties.SendValid` | lib/child-pool.js:34-167 | `send` keeps the invariant: workers are distinct, listed in the pool that forked them, alive while listed, and no pool exceeds its desired count |
| `PoolProperties.SaturatedSendOnlyQueues` | lib/child-pool.js:145-160 | at the ceiling, `send` appends exactly `{pool, message, callback}` to the queue and changes nothing else |
| `PoolProperties.IdleWorkerReused` | lib/child-pool.js:145-166 | below the ceiling, the first idle worker in list order gets the callback, the active count rises by exactly one and one message goes to that worker, with no fork |
| `PoolProperties.ForkCondition` | lib/child-pool.js:149-152 | a fork happens if and only if the scheduler is below the ceiling, no worker is idle and the pool has fewer workers than it wants |
| `PoolProperties.ForkEffects` | lib/child-pool.js:39-166 | a fork raises both counters by one and appends the worker last, with rewritten arguments, the module sent first and then the task |
| `PoolProperties.FullPoolQueues` | lib/child-pool.js:149-161 | with no idle worker and a full pool, the task is queued and nothing else changes |
| `PoolProperties.SendRespectsCeiling` | lib/child-pool.js:145-166 | `send` adds at most one active task, and only from below the ceiling |
| `PoolProperties.SendBalanced` | lib/child-pool.js:164-166 | `send` keeps `activeTasks == busy workers + pending completions` |
| `PoolProperties.SendAccounting` | lib/child-pool.js:164-166 | `send` moves the active count and the busy-worker count together |
| `PoolProperties.SendKeepsWorkers` | lib/child-pool.js:149-166 | `send` never kills, revives or re-homes a worker |
| `PoolProperties.SendAllValid` | lib/child-pool.js:29-33 | `sendAll` keeps the invariant |
| `PoolProperties.SendAllNoAccounting` | lib/child-pool.js:29-33 | `sendAll` adds one delivery per worker in list order, and leaves the queue, the counters and every callback unchanged |
| `PoolProperties.CompleteImmediate` | lib/child-pool.js:82-88 | the callback is captured into the pending completion and cleared; with an empty queue nothing else changes; otherwise exactly the head leaves the queue, dispatched or back at the tail |
| `PoolProperties.SaturatedCompletionRequeuesAtTail` | lib/child-pool.js:85-87 | the re-dispatch runs before the decrement, so at the ceiling the head goes to the tail and nothing else changes |
| `PoolProperties.CompletionDispatchesHead` | lib/child-pool.js:85-87 | below the ceiling, a head from the finishing worker's own pool is dispatched and the active count rises by one |
| `PoolProperties.CompleteValid` | lib/child-pool.js:79-114 | the immediate half keeps the invariant |
| `PoolProperties.CompleteAccounting` | lib/child-pool.js:82-88 | the immediate half frees the worker without counting its task off |
| `PoolProperties.CompleteBalanced` | lib/child-pool.js:82-106 | the accounting survives a completion if and only if the worker was busy; an out-of-band reply leaves the count one too low |
| `PoolProperties.EvictValid` | lib/child-pool.js:101-105 | killing and unlisting a worker keeps the invariant |
| `PoolProperties.TickValid` | lib/child-pool.js:91-113 | the deferred half keeps the invariant |
| `PoolProperties.TickEffects` | lib/child-pool.js:91-113 | `activeTasks` drops by exactly one; exactly one outcome is added: the callback called once with `(err, data)`, or one pool error; a fatal reply kills that worker and unlists it alone; a non-fatal reply changes no pool or worker |
| `PoolProperties.FatalTickKeepsOrder` | lib/child-pool.js:101-105 | after a fatal completion the pool lists the other workers in their old order |
| `PoolProperties.TickBalanced` | lib/child-pool.js:91-113 | the deferred half keeps `activeTasks == busy workers + pending completions` |
| `PoolProperties.CompletionCallsBackOnce` | lib/child-pool.js:79-114 | from start to finish, a busy worker's reply invokes its callback exactly once with the reply's error and data |
| `PoolProperties.ExitWithCodeIgnored` | lib/child-pool.js:116-117 | an exit with any code leaves the state unchanged |
| `PoolProperties.ExitIgnoredWhenKilled` | lib/child-pool.js:102-117 | a SIGKILL exit, or any exit after the exit observer was removed, leaves the state unchanged |
| `PoolProperties.CrashBecomesFatalCompletion` | lib/child-pool.js:116-131 | a death by any other signal becomes a fatal completion of that worker carrying "Worker exited unexpectedly, signal <signal>" |
| `PoolProperties.EvictedWorkerExitIgnored` | lib/child-pool.js:101-103 | once a fatal completion's deferred half has run, later exits of that worker change nothing |
| `PoolProperties.ExitValid` | lib/child-pool.js:116-133 | the exit observer keeps the invariant |
| `PoolProperties.ScenarioSends` | lib/child-pool.js:34-167 | ceiling 2, pool of one worker: the first of three sends forks and runs, the other two are queued in order |
| `PoolProperties.ScenarioCompletion` | lib/child-pool.js:79-114 | the first completion hands the second task to the same worker, keeps the third queued, and then calls back the first task |
| `ChildPool.Scheduler.constructor` | lib/child-pool.js:9-13 | loading the module gives the initial state |
| `ChildPool.Scheduler.NewPool` | lib/child-pool.js:15-26 | the pool constructor appends a pool as `AddPool` describes |
| `ChildPool.Scheduler.SetBackground` | lib/child-pool.js:175-177 | sets the background flag and nothing else |
| `ChildPool.Scheduler.Fork` | lib/child-pool.js:39-140 | called below the pool's desired count, performs `ForkWorker`, returns the new worker's id and keeps the invariant |
| `ChildPool.Scheduler.Send` | lib/child-pool.js:34-167 | performs `Send` with the defaulted callback and keeps the invariant |
| `ChildPool.Scheduler.SendAll` | lib/child-pool.js:29-33 | its loop adds the broadcast deliveries in order and changes nothing else |
| `ChildPool.Scheduler.ProcessMessage` | lib/child-pool.js:79-90 | performs the immediate half `Complete` and keeps the invariant |
| `ChildPool.Scheduler.RunDeferred` | lib/child-pool.js:91-113 | runs the oldest deferred half as `Tick` describes and keeps the invariant |
| `ChildPool.Scheduler.OnExit` | lib/child-pool.js:116-133 | performs `Exit` and keeps the invariant |
| `ChildPool.Scheduler.OnError` | lib/child-pool.js:134-137 | an `error` event leaves the scheduler unchanged |
| `Findings.FatalCompletionStrandsQueuedTask` | lib/child-pool.js:82-104 | as written: a fatal reply can pass the queued task to the worker that the tick then kills, so a killed worker holds a callback |
| `Findings.FatalCompletionStrandsScenario` | lib/child-pool.js:82-106 | the concrete input: afterwards task 2 sits on a killed worker and one active task is counted with no live worker |
| `Findings.SendKeepsSound` | lib/child-pool.js:145-166 | `send` never assigns to a killed worker |
| `Findings.CompleteEvictingSound` | lib/child-pool.js:82-104 | the corrected completion keeps every assigned worker alive |
| `Findings.TickKeepsSound` | lib/child-pool.js:91-113 | the unchanged tick keeps that soundness after a corrected completion |
| `Findings.ExitEvictingSound` | lib/child-pool.js:116-131 | so does the exit observer over the corrected completion |
| `Findings.FatalCompletionEvictingScenario` | lib/child-pool.js:82-106 | on the same input, the corrected completion gives task 2 to a freshly forked replacement worker |
| `Findings.BackgroundCompletionRequeuesHead` | lib/child-pool.js:85-106 | as written, in background mode on at most two CPUs with the accounting balanced, every completion of a busy worker sends the head of the queue back to the tail |
| `Findings.SendKeepsQueued` | lib/child-pool.js:145-161 | `send` leaves every entry already queued in place, serving or queueing only its own task |
| `Findings.BackgroundCompletionStalls` | lib/child-pool.js:85-106 | as written, with background mode on two CPUs, the queued task is left waiting after the completion, with nothing active and an idle worker ready |
| `Findings.ReleasingDispatchesHead` | lib/child-pool.js:85-87 | corrected: within the ceiling, a task finishing on the head's pool hands its worker to the head |
| `Findings.StallReleasingImmediate` | lib/child-pool.js:82-88 | on the stalling input, the corrected completion dispatches the queued task at once |
| `Findings.BackgroundCompletionReleasing` | lib/child-pool.js:82-113 | and after the tick the first task is called back while the second runs |
| `Findings.ReleasingKeepsCountExact` | lib/child-pool.js:82-106 | with the corrected completion `activeTasks == busy workers` survives any reply, out-of-band ones included |
| `Findings.TickReleasedKeepsCountExact` | lib/child-pool.js:91-113 | the corrected tick keeps the count exact |
| `Findings.SendKeepsCountExact` | lib/child-pool.js:164-166 | `send` keeps the count exact |
| `Findings.OutOfBandReplyDrifts` | lib/child-pool.js:106-108 | as written, an out-of-band reply leaves `activeTasks` one below the number of busy workers |

## Left out

- Process and IPC plumbing is abstract: `cp.spawn`, stdio wiring, `process.send`, `kill()` and `removeAllListeners`. A worker's process is its id. `deliveries` records what is sent to it. `Worker.killed` records both the kill and the removal of its exit observer.
- The spawn command line is not modelled. It has the worker script path, and `execArgv` appears twice (line 70). A worker records only the rewritten `execArgv`.
- The `stdout` option and its `data` listener (lines 74-76) are not modelled. They are I/O pass-through.
- `keepAlive` and `cullTimeout` are stored but never read (lines 21, 25), so they are not modelled.
- CPU discovery (`os.cpus()`) and `process.execArgv` are constructor parameters of `Scheduler`.
- Logging is not modelled: `logger.error`, `logger.alert` and `console.log` are sinks with no state.
- `EventEmitter` mechanics, `Error` objects and `util.inspect` are abstracted. An error is a `Failure`, whose `stack` is None when the runtime's own trace is kept. A crash's stack is one exception: the exit observer passes the stack of the `Error` it builds (lines 120, 129), and the tick copies that stack onto the error it delivers (line 96). `CrashReply` records it as None, so the model does not tell that stack from the tick's own. The "Out of band data: <inspect(data)>" error is `OutOfBandData(data)`.
- `process.nextTick` is an explicit `pending` list. `RunDeferred` runs its oldest entry. Any interleaving of ticks and other events is a sequence of method calls. The model does not force a tick to run before the next I/O event.
- Events are not restricted beyond coming from a forked worker. The model allows a message from a killed worker, or two exits of one process, which Node.js would not deliver.
- Pools and workers are values in sequences indexed by id, not shared objects, so the model has no aliasing. A queue entry names its pool by id.
- Options are reduced to `workers` (an integer) and `logId` (an optional string). `_.extend` copying an explicit `workers: undefined` is not modelled; neither are non-integer values.
- Messages and reply data are opaque integers.
- Counters are unbounded: beyond 2^53 a JavaScript number would lose precision, and beyond 10^21 its text would switch to exponent notation.
- The corrected definitions in `Findings` sit beside the as-written model. `ChildPool.Scheduler` uses the as-written steps, so that it matches the source.

## Findings

| source | as written | input that shows it | evidently intended | confidence | as-written member | corrected member |
|---|---|---|---|---|---|---|
| lib/child-pool.js:82-104 | the immediate half re-dispatches the queue before the deferred half evicts a fatally failed worker, so the queued task can go to the dying worker | one pool of one worker, ceiling 2, the worker running task 1 with tasks 2 and 3 queued, then the worker replies `{fatal: true}`: task 2 is sent to the worker that is then killed; its callback never runs and `activeTasks` stays at 1 with no live worker | a queued task goes only to a live worker, and every accepted task is called back once | high (not executed) | `Findings.FatalCompletionStrandsQueuedTask`, `Findings.FatalCompletionStrandsScenario` | `Findings.CompleteEvicting` (evict before re-dispatch), with `Findings.CompleteEvictingSound`, `Findings.TickKeepsSound`, `Findings.ExitEvictingSound`, `Findings.FatalCompletionEvictingScenario` |
| lib/child-pool.js:85-87, 106 | the re-dispatch still counts the finishing task; at the ceiling the head rotates to the tail (FIFO order lost), and with a ceiling of one the queue stalls | background mode, 2 CPUs, one pool of one worker running task 1 with task 2 queued; task 1 completes: task 2 is re-queued and the count drops to 0. A later `send` takes the idle worker for its own task, and each later completion re-queues task 2 again, because the finishing task is still counted. So while background mode stays on, task 2 never leaves the queue, unless an out-of-band reply (row 3) has driven the count down | the finishing task's slot is released before the queue is re-dispatched, so the head proceeds | medium (not executed) | `Findings.BackgroundCompletionRequeuesHead`, `Findings.SendKeepsQueued`, `Findings.BackgroundCompletionStalls` (with `PoolProperties.SaturatedCompletionRequeuesAtTail`) | `Findings.CompleteReleasing` with `Findings.TickReleased`, with `Findings.ReleasingDispatchesHead`, `Findings.StallReleasingImmediate`, `Findings.BackgroundCompletionReleasing` |
| lib/child-pool.js:106-108 | `activeTasks` is decremented for every reply, including out-of-band replies from a worker without a task | a pool whose idle worker sends any message: afterwards `activeTasks` is one below the number of busy workers, so the ceiling admits one task too many | only a reply that ends a counted task gives its slot back | medium (not executed) | `Findings.OutOfBandReplyDrifts` (with `PoolProperties.CompleteBalanced`) | `Findings.CompleteReleasing` with `Findings.TickReleased`, with `Findings.ReleasingKeepsCountExact`, `Findings.TickReleasedKeepsCountExact`, `Findings.SendKeepsCountExact` |
