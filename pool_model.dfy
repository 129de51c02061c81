/**
 * The scheduling state of a process running any number of child pools, and one
 * specification function per step the scheduler takes.
 *
 * Everything that the JavaScript module keeps in module-level variables (the shared
 * queue, the active-task counter, the process-wide fork counter, the background flag)
 * lives in one `State` together with every pool and every worker ever forked. Pools and
 * workers are identified by their position: `PoolId` is the order of construction,
 * `WorkerId` the order of forking. A worker process is abstract: the model records what
 * is sent to it (`deliveries`), the arguments it was started with and whether the
 * scheduler killed it. Callbacks are task ids; invoking one, or emitting a pool
 * error, appends an `Outcome`.
 */
module PoolModel {
  import opened Wrappers
  import opened ProfArgs

  type WorkerId = nat
  type PoolId = nat
  /** An opaque payload sent to a worker. */
  type Message = int
  /** An opaque result a worker sends back. */
  type Data = int

  /** A completion callback: one the caller supplied, or the no-op `send` substitutes. */
  datatype Callback = Supplied(task: nat) | Noop

  /** An entry of the process-wide queue: `{pool, message, callback}`. */
  datatype QueuedTask = QueuedTask(pool: PoolId, message: Message, callback: Callback)

  /** The pool options the scheduler reads: the desired worker count and the log id. */
  datatype Options = Options(workers: int, logId: Option<string>)

  /** A pool: its module, its options, its live workers in order, and its fork counter. */
  datatype Pool = Pool(moduleSpec: string, options: Options, workers: seq<WorkerId>, totalWorkers: nat)

  /**
   * A forked worker: the pool that forked it, the callback of the task it is running
   * (None when idle), the arguments it was started with, and whether the scheduler has
   * killed it. An exit observer is attached exactly while the worker is not killed:
   * the two change together.
   */
  datatype Worker = Worker(pool: PoolId, callback: Option<Callback>, execArgv: seq<string>, killed: bool)

  /** What a worker sends back: `{err, stack, fatal, data}`, each possibly absent. */
  datatype Reply = Reply(err: Option<string>, stack: Option<string>, fatal: bool, data: Option<Data>)

  /**
   * An error handed to a callback or emitted on a pool. `stack` is None when the
   * runtime's own stack trace is kept.
   */
  datatype Failure = Failure(message: string, stack: Option<string>) | OutOfBandData(data: Option<Data>)

  /** An observable effect of a completion: a callback invocation or a pool `error` event. */
  datatype Outcome =
    | Called(callback: Callback, err: Option<Failure>, data: Option<Data>)
    | Emitted(pool: PoolId, error: Failure)

  /** What goes down a worker's message channel: the pool's module first, then payloads. */
  datatype Payload = ModuleSpec(moduleSpec: string) | Content(message: Message)
  datatype Delivery = Delivery(worker: WorkerId, payload: Payload)

  /** A completion whose second half waits for the next tick. */
  datatype Deferred = Deferred(worker: WorkerId, callback: Option<Callback>, reply: Reply)

  datatype State = State(
    numCPUs: nat,
    execArgv: seq<string>,
    queue: seq<QueuedTask>,
    activeTasks: int,
    totalWorkers: nat,
    isBackground: bool,
    pools: seq<Pool>,
    forked: seq<Worker>,
    pending: seq<Deferred>,
    deliveries: seq<Delivery>,
    outcomes: seq<Outcome>)

  // ---------------------------------------------------------------- invariants

  predicate NoDup(ws: seq<WorkerId>) {
    forall i, j :: 0 <= i < j < |ws| ==> ws[i] != ws[j]
  }

  /** A pool never holds more workers than its desired count (none if that is not positive). */
  predicate WithinCap(n: nat, cap: int) {
    n == 0 || n <= cap
  }

  /** A pool lists distinct, live workers that it forked itself, and no more than it may. */
  predicate PoolWellFormed(s: State, p: PoolId)
    requires p < |s.pools|
  {
    var ws := s.pools[p].workers;
    NoDup(ws)
    && (forall w :: w in ws ==> w < |s.forked| && s.forked[w].pool == p && !s.forked[w].killed)
    && WithinCap(|ws|, s.pools[p].options.workers)
  }

  /** A worker belongs to an existing pool and stays in that pool's list until killed. */
  predicate WorkerWellFormed(s: State, w: WorkerId)
    requires w < |s.forked|
  {
    s.forked[w].pool < |s.pools|
    && (!s.forked[w].killed ==> w in s.pools[s.forked[w].pool].workers)
  }

  predicate Valid(s: State) {
    s.totalWorkers == |s.forked|
    && (forall p :: 0 <= p < |s.pools| ==> PoolWellFormed(s, p))
    && (forall w :: 0 <= w < |s.forked| ==> s.forked[w].pool < |s.pools|)
    && (forall w :: 0 <= w < |s.forked| ==> WorkerWellFormed(s, w))
    && (forall i :: 0 <= i < |s.queue| ==> s.queue[i].pool < |s.pools|)
    && (forall i :: 0 <= i < |s.pending| ==> s.pending[i].worker < |s.forked|)
  }

  function Busy(w: Worker): nat {
    if w.callback.Some? then 1 else 0
  }

  /** The number of workers that currently hold a callback. */
  function BusyCount(ws: seq<Worker>): nat {
    if |ws| == 0 then 0 else BusyCount(ws[..|ws| - 1]) + Busy(ws[|ws| - 1])
  }

  /**
   * The accounting the active-task counter is meant to keep: one task per busy worker
   * plus one per completion whose deferred half has not run yet.
   */
  predicate Balanced(s: State) {
    s.activeTasks == BusyCount(s.forked) + |s.pending|
  }

  // ---------------------------------------------------------------- construction

  function Initial(numCPUs: nat, execArgv: seq<string>): State {
    State(numCPUs, execArgv, [], 0, 0, false, [], [], [], [], [])
  }

  /** `new ChildPool(module, options)`: the desired worker count defaults to the CPU count. */
  function AddPool(s: State, moduleSpec: string, workers: Option<int>, logId: Option<string>): State {
    s.(pools := s.pools + [Pool(moduleSpec, Options(workers.GetOr(s.numCPUs), logId), [], 0)])
  }

  /** `ChildPool.isBackground(b)`. */
  function SetBackground(s: State, background: bool): State {
    s.(isBackground := background)
  }

  // ---------------------------------------------------------------- admission

  /** The global ceiling before the background slot: at least two, however few CPUs. */
  function Ceiling(numCPUs: nat): nat {
    if numCPUs < 2 then 2 else numCPUs
  }

  /** `activeTasks + (isBackground ? 1 : 0) >= max(numCPUs, 2)`. */
  predicate Saturated(s: State) {
    s.activeTasks + (if s.isBackground then 1 else 0) >= Ceiling(s.numCPUs)
  }

  predicate IsIdle(forked: seq<Worker>, w: WorkerId) {
    w < |forked| && forked[w].callback.None?
  }

  /** Position in `ws` of the first worker without a callback, as `_.find` on the pool's list. */
  function FirstIdle(ws: seq<WorkerId>, forked: seq<Worker>): (r: Option<nat>)
    ensures r.Some? ==> r.value < |ws| && IsIdle(forked, ws[r.value])
    ensures r.Some? ==> forall j :: 0 <= j < r.value ==> !IsIdle(forked, ws[j])
    ensures r.None? ==> forall j :: 0 <= j < |ws| ==> !IsIdle(forked, ws[j])
  {
    if |ws| == 0 then None
    else if IsIdle(forked, ws[0]) then Some(0)
    else
      match FirstIdle(ws[1..], forked)
      case None => None
      case Some(i) => Some(i + 1)
  }

  datatype Admission = Reuse(worker: WorkerId) | Fork | Enqueue

  /** The decision `send` takes for pool `p`. */
  function Admit(s: State, p: PoolId): (a: Admission)
    requires p < |s.pools|
    ensures a.Reuse? ==> IsIdle(s.forked, a.worker)
  {
    var ws := s.pools[p].workers;
    if Saturated(s) then Enqueue
    else
      match FirstIdle(ws, s.forked)
      case Some(i) => Reuse(ws[i])
      case None => if |ws| < s.pools[p].options.workers then Fork else Enqueue
  }

  /**
   * `fork()`: both fork counters go up, the worker is started with its own arguments,
   * is sent the pool's module, gets its observers and is appended to the pool's list.
   */
  function ForkWorker(s: State, p: PoolId): State
    requires p < |s.pools|
  {
    var pool := s.pools[p];
    var global := s.totalWorkers + 1;
    var local := pool.totalWorkers + 1;
    var w := |s.forked|;
    var args := WorkerExecArgv(s.execArgv, pool.options.logId, local, global);
    s.(totalWorkers := global,
       pools := s.pools[p := pool.(workers := pool.workers + [w], totalWorkers := local)],
       forked := s.forked + [Worker(p, None, args, false)],
       deliveries := s.deliveries + [Delivery(w, ModuleSpec(pool.moduleSpec))])
  }

  /** Lines 164-166: count the task, hand the callback to worker `w`, send it the message. */
  function Assign(s: State, w: WorkerId, message: Message, callback: Callback): State
    requires w < |s.forked|
  {
    s.(activeTasks := s.activeTasks + 1,
       forked := s.forked[w := s.forked[w].(callback := Some(callback))],
       deliveries := s.deliveries + [Delivery(w, Content(message))])
  }

  /** `pool.send(message, callback)` once the callback has been defaulted. */
  function Send(s: State, p: PoolId, message: Message, callback: Callback): State
    requires p < |s.pools|
  {
    match Admit(s, p)
    case Reuse(w) => Assign(s, w, message, callback)
    case Fork => Assign(ForkWorker(s, p), |s.forked|, message, callback)
    case Enqueue => s.(queue := s.queue + [QueuedTask(p, message, callback)])
  }

  /** `callback || function() {}`. */
  function DefaultCallback(callback: Option<Callback>): Callback {
    callback.GetOr(Noop)
  }

  /** `pool.sendAll(message)`: one delivery per worker of the pool, in list order. */
  function Broadcast(ws: seq<WorkerId>, message: Message): (r: seq<Delivery>)
    ensures |r| == |ws|
    ensures forall i :: 0 <= i < |ws| ==> r[i] == Delivery(ws[i], Content(message))
  {
    if |ws| == 0 then [] else [Delivery(ws[0], Content(message))] + Broadcast(ws[1..], message)
  }

  function SendAll(s: State, p: PoolId, message: Message): State
    requires p < |s.pools|
  {
    s.(deliveries := s.deliveries + Broadcast(s.pools[p].workers, message))
  }

  // ---------------------------------------------------------------- completion

  /**
   * The immediate half of `processMessage` for worker `w` (lines 82-88): take the
   * worker's callback and mark it idle, re-dispatch the head of the queue if there is
   * one, and leave the rest of the completion for the next tick.
   */
  function Complete(s: State, w: WorkerId, reply: Reply): State
    requires Valid(s) && w < |s.forked|
  {
    var callback := s.forked[w].callback;
    var cleared := s.(forked := s.forked[w := s.forked[w].(callback := None)]);
    var dispatched :=
      if |s.queue| == 0 then cleared
      else Send(cleared.(queue := s.queue[1..]), s.queue[0].pool, s.queue[0].message, s.queue[0].callback);
    dispatched.(pending := dispatched.pending + [Deferred(w, callback, reply)])
  }

  /** `_.without(ws, w)`: the list without `w`, the others in their order. */
  function Without(ws: seq<WorkerId>, w: WorkerId): (r: seq<WorkerId>)
    ensures forall x :: x in r <==> x in ws && x != w
    ensures |r| <= |ws|
  {
    if |ws| == 0 then []
    else (if ws[0] == w then [] else [ws[0]]) + Without(ws[1..], w)
  }

  /** Lines 93-98: an error only for a truthy `err`, carrying a truthy `stack`. */
  function ReplyFailure(reply: Reply): Option<Failure> {
    if Truthy(reply.err) then Some(Failure(reply.err.value, if Truthy(reply.stack) then reply.stack else None))
    else None
  }

  /**
   * Lines 107-111: invoke the captured callback with `(err, data)`, or, when there was
   * none, emit `err` on the pool, or the out-of-band error when there is no `err` either.
   */
  function Settle(p: PoolId, callback: Option<Callback>, reply: Reply): Outcome {
    var err := ReplyFailure(reply);
    match callback
    case Some(c) => Called(c, err, reply.data)
    case None => Emitted(p, if err.Some? then err.value else OutOfBandData(reply.data))
  }

  /** Line 104 with lines 102-103: kill `w` (dropping its exit observer) and unlist it. */
  function Evict(s: State, w: WorkerId): State
    requires w < |s.forked| && s.forked[w].pool < |s.pools|
  {
    var p := s.forked[w].pool;
    s.(forked := s.forked[w := s.forked[w].(killed := true)],
       pools := s.pools[p := s.pools[p].(workers := Without(s.pools[p].workers, w))])
  }

  /**
   * The deferred half of `processMessage` (lines 91-113) for the oldest pending
   * completion: evict the worker if the reply is fatal, decrement the active-task
   * count, and produce exactly one outcome.
   */
  function Tick(s: State): State
    requires Valid(s) && |s.pending| > 0
  {
    var d := s.pending[0];
    var p := s.forked[d.worker].pool;
    var rest := s.(pending := s.pending[1..]);
    var evicted := if d.reply.fatal then Evict(rest, d.worker) else rest;
    evicted.(activeTasks := evicted.activeTasks - 1,
             outcomes := evicted.outcomes + [Settle(p, d.callback, d.reply)])
  }

  // ---------------------------------------------------------------- process observers

  /** Line 117: only a death by a signal other than SIGKILL is a crash. */
  predicate IsCrash(code: Option<int>, signal: Option<string>) {
    code.None? && signal != Some("SIGKILL")
  }

  /** The text a JavaScript string concatenation gives an optional signal name. */
  function SignalText(signal: Option<string>): string {
    match signal
    case Some(name) => name
    case None => "null"
  }

  const ExitMessage := "Worker exited unexpectedly, signal "

  /** Lines 120-130: the fatal completion synthesized for a crash. */
  function CrashReply(signal: Option<string>): Reply {
    Reply(Some(ExitMessage + SignalText(signal)), None, true, None)
  }

  /** The `exit` observer of worker `w` (lines 116-133), while it is attached. */
  function Exit(s: State, w: WorkerId, code: Option<int>, signal: Option<string>): State
    requires Valid(s) && w < |s.forked|
  {
    if !s.forked[w].killed && IsCrash(code, signal) then Complete(s, w, CrashReply(signal)) else s
  }
}
