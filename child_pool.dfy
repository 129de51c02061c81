/**
 * The scheduler as the JavaScript module runs it: one object holding the module-level
 * variables and the records of every pool and worker, with one method per entry point
 * and per observer. Each method is proved to perform exactly the step its specification
 * function in `PoolModel` describes, and to keep the structural invariant.
 */
module ChildPool {
  import opened Wrappers
  import opened ProfArgs
  import opened PoolModel
  import PoolProperties

  class Scheduler {
    /** `require('os').cpus().length`, read once when the module loads. */
    const numCPUs: nat
    /** `process.execArgv` of the scheduler's own process. */
    const execArgv: seq<string>

    var queue: seq<QueuedTask>
    var activeTasks: int
    var totalWorkers: nat
    var isBackground: bool
    /** Every pool constructed so far, by `PoolId`. */
    var pools: seq<Pool>
    /** Every worker forked so far, by `WorkerId`, including killed ones. */
    var forked: seq<Worker>
    /** Completions whose `process.nextTick` body has not run yet, oldest first. */
    var pending: seq<Deferred>
    /** Every message sent down a worker's channel, in order. */
    var deliveries: seq<Delivery>
    /** Every callback invocation and pool `error` event, in order. */
    var outcomes: seq<Outcome>

    function Abs(): State
      reads this
    {
      State(numCPUs, execArgv, queue, activeTasks, totalWorkers, isBackground,
            pools, forked, pending, deliveries, outcomes)
    }

    predicate Valid()
      reads this
    {
      PoolModel.Valid(Abs())
    }

    /** Loading the module: no pools, no workers, an empty queue, nothing active. */
    constructor (numCPUs: nat, execArgv: seq<string>)
      ensures Valid() && Abs() == Initial(numCPUs, execArgv)
    {
      this.numCPUs := numCPUs;
      this.execArgv := execArgv;
      queue, activeTasks, totalWorkers, isBackground := [], 0, 0, false;
      pools, forked, pending, deliveries, outcomes := [], [], [], [], [];
    }

    /** `new ChildPool(moduleSpec, options)`; returns the new pool's id. */
    method NewPool(moduleSpec: string, workers: Option<int>, logId: Option<string>) returns (p: PoolId)
      requires Valid()
      modifies this
      ensures Valid() && p == old(|pools|)
      ensures Abs() == AddPool(old(Abs()), moduleSpec, workers, logId)
    {
      PoolProperties.AddPoolValid(Abs(), moduleSpec, workers, logId);
      p := |pools|;
      pools := pools + [Pool(moduleSpec, Options(workers.GetOr(numCPUs), logId), [], 0)];
    }

    /** `ChildPool.isBackground(background)`. */
    method SetBackground(background: bool)
      requires Valid()
      modifies this
      ensures Valid() && Abs() == PoolModel.SetBackground(old(Abs()), background)
    {
      PoolProperties.RecordsValid(Abs(), Abs().(isBackground := background));
      isBackground := background;
    }

    /** `fork()`: start a worker for pool `p` and append it to the pool's list. */
    method Fork(p: PoolId) returns (w: WorkerId)
      requires Valid() && p < |pools| && |pools[p].workers| < pools[p].options.workers
      modifies this
      ensures w == old(|forked|) && Abs() == ForkWorker(old(Abs()), p) && Valid()
    {
      PoolProperties.ForkValid(Abs(), p);
      totalWorkers := totalWorkers + 1;
      pools := pools[p := pools[p].(totalWorkers := pools[p].totalWorkers + 1)];
      var args := WorkerExecArgv(execArgv, pools[p].options.logId, pools[p].totalWorkers, totalWorkers);
      w := |forked|;
      // spawn, with the exit, error and message observers attached
      forked := forked + [Worker(p, None, args, false)];
      deliveries := deliveries + [Delivery(w, ModuleSpec(pools[p].moduleSpec))];
      pools := pools[p := pools[p].(workers := pools[p].workers + [w])];
      assert Abs() == ForkWorker(old(Abs()), p);
    }

    /** `pool.send(message, callback)`. */
    method Send(p: PoolId, message: Message, callback: Option<Callback>)
      requires Valid() && p < |pools|
      modifies this
      ensures Valid() && Abs() == PoolModel.Send(old(Abs()), p, message, DefaultCallback(callback))
    {
      var cb := callback.GetOr(Noop);
      PoolProperties.SendValid(Abs(), p, message, cb);
      var exceedsGlobal := activeTasks + (if isBackground then 1 else 0) >= Ceiling(numCPUs);
      var worker: Option<WorkerId> := None;
      if !exceedsGlobal {
        match FirstIdle(pools[p].workers, forked)
        case Some(i) => worker := Some(pools[p].workers[i]);
        case None =>
      }
      if worker.None? {
        if !exceedsGlobal && |pools[p].workers| < pools[p].options.workers {
          var w := Fork(p);
          worker := Some(w);
        } else {
          queue := queue + [QueuedTask(p, message, cb)];
          return;
        }
      }
      var w := worker.value;
      activeTasks := activeTasks + 1;
      forked := forked[w := forked[w].(callback := Some(cb))];
      deliveries := deliveries + [Delivery(w, Content(message))];
    }

    /** `pool.sendAll(message)`. */
    method SendAll(p: PoolId, message: Message)
      requires Valid() && p < |pools|
      modifies this
      ensures Valid() && Abs() == PoolModel.SendAll(old(Abs()), p, message)
    {
      var ws := pools[p].workers;
      var i := 0;
      while i < |ws|
        invariant 0 <= i <= |ws|
        invariant Abs() == old(Abs()).(deliveries := old(deliveries) + Broadcast(ws[..i], message))
      {
        PoolProperties.BroadcastSnoc(ws, i, message);
        deliveries := deliveries + [Delivery(ws[i], Content(message))];
        i := i + 1;
      }
      assert ws[..i] == ws;
      PoolProperties.SendAllValid(old(Abs()), p, message);
    }

    /** `processMessage(reply)` for worker `w`: the part that runs at once. */
    method ProcessMessage(w: WorkerId, reply: Reply)
      requires Valid() && w < |forked|
      modifies this
      ensures Valid() && Abs() == Complete(old(Abs()), w, reply)
    {
      PoolProperties.CompleteValid(Abs(), w, reply);
      var callback := forked[w].callback;
      PoolProperties.SetCallbackValid(Abs(), w, None);
      forked := forked[w := forked[w].(callback := None)];
      if |queue| > 0 {
        var queued := queue[0];
        PoolProperties.RecordsValid(Abs(), Abs().(queue := queue[1..]));
        queue := queue[1..];
        Send(queued.pool, queued.message, Some(queued.callback));
      }
      pending := pending + [Deferred(w, callback, reply)];
    }

    /** The body `processMessage` leaves to `process.nextTick`, for the oldest such body. */
    method RunDeferred()
      requires Valid() && |pending| > 0
      modifies this
      ensures Valid() && Abs() == Tick(old(Abs()))
    {
      PoolProperties.TickValid(Abs());
      var d := pending[0];
      pending := pending[1..];
      var err := ReplyFailure(d.reply);
      var p := forked[d.worker].pool;
      if d.reply.fatal {
        // removeAllListeners('exit') and kill()
        forked := forked[d.worker := forked[d.worker].(killed := true)];
        pools := pools[p := pools[p].(workers := Without(pools[p].workers, d.worker))];
      }
      activeTasks := activeTasks - 1;
      match d.callback
      case None =>
        outcomes := outcomes + [Emitted(p, if err.Some? then err.value else OutOfBandData(d.reply.data))];
      case Some(c) =>
        outcomes := outcomes + [Called(c, err, d.reply.data)];
    }

    /** The `exit` observer of worker `w`, attached while the worker is not killed. */
    method OnExit(w: WorkerId, code: Option<int>, signal: Option<string>)
      requires Valid() && w < |forked|
      modifies this
      ensures Valid() && Abs() == Exit(old(Abs()), w, code, signal)
    {
      if !forked[w].killed && code.None? && signal != Some("SIGKILL") {
        ProcessMessage(w, Reply(Some(ExitMessage + SignalText(signal)), None, true, None));
      }
    }

    /** The `error` observer of worker `w`: it only logs, so the scheduler is unchanged. */
    method OnError(w: WorkerId, error: string)
      requires Valid() && w < |forked|
      ensures Valid() && Abs() == old(Abs())
    {
    }
  }
}
