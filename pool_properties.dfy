/**
 * What the scheduler's steps guarantee: the structural invariant every step keeps,
 * the admission rules of `send`, the two halves of a completion, the crash observer,
 * and the active-task accounting.
 */
module PoolProperties {
  import opened Wrappers
  import opened ProfArgs
  import opened PoolModel

  // ---------------------------------------------------------------- list helpers

  lemma {:induction false} BusyCountAppend(f: seq<Worker>, x: Worker)
    ensures BusyCount(f + [x]) == BusyCount(f) + Busy(x)
  {
    assert (f + [x])[..|f|] == f;
  }

  /** Replacing one worker record changes the busy count by the change in that record alone. */
  lemma {:induction false} BusyCountUpdate(f: seq<Worker>, w: nat, x: Worker)
    requires w < |f|
    ensures BusyCount(f[w := x]) == BusyCount(f) - Busy(f[w]) + Busy(x)
  {
    var n := |f| - 1;
    if w == n {
      assert f[w := x][..n] == f[..n];
    } else {
      assert f[w := x][..n] == f[..n][w := x];
      BusyCountUpdate(f[..n], w, x);
    }
  }

  lemma {:induction false} WithoutNoDup(ws: seq<WorkerId>, w: WorkerId)
    requires NoDup(ws)
    ensures NoDup(Without(ws, w))
  {
    if |ws| > 0 {
      assert NoDup(ws[1..]);
      WithoutNoDup(ws[1..], w);
      var rest := Without(ws[1..], w);
      assert ws[0] !in ws[1..];
      if ws[0] != w {
        assert Without(ws, w) == [ws[0]] + rest;
        assert ws[0] !in rest;
      }
    }
  }

  /** Removing a worker listed once keeps every other worker in its order. */
  lemma {:induction false} WithoutKeepsOrder(ws: seq<WorkerId>, i: nat)
    requires NoDup(ws) && i < |ws|
    ensures Without(ws, ws[i]) == ws[..i] + ws[i + 1..]
  {
    var w := ws[i];
    if i == 0 {
      assert w !in ws[1..];
      WithoutAbsent(ws[1..], w);
    } else {
      assert NoDup(ws[1..]);
      WithoutKeepsOrder(ws[1..], i - 1);
      assert ws[1..][i - 1] == w;
      assert ws[1..][..i - 1] == ws[1..i];
      assert ws[1..][i..] == ws[i + 1..];
      assert ws[..i] == [ws[0]] + ws[1..i];
    }
  }

  lemma {:induction false} WithoutAbsent(ws: seq<WorkerId>, w: WorkerId)
    requires w !in ws
    ensures Without(ws, w) == ws
  {
    if |ws| > 0 {
      WithoutAbsent(ws[1..], w);
      assert ws == [ws[0]] + ws[1..];
    }
  }

  /** Broadcasting to one more worker adds one delivery at the end. */
  lemma {:induction false} BroadcastSnoc(ws: seq<WorkerId>, i: nat, message: Message)
    requires i < |ws|
    ensures Broadcast(ws[..i + 1], message) == Broadcast(ws[..i], message) + [Delivery(ws[i], Content(message))]
  {
    var a := Broadcast(ws[..i + 1], message);
    var b := Broadcast(ws[..i], message) + [Delivery(ws[i], Content(message))];
    assert |a| == |b|;
    forall k | 0 <= k < |a| ensures a[k] == b[k] {
      assert ws[..i + 1][k] == ws[k];
    }
  }

  // ---------------------------------------------------------------- the invariant

  lemma InitialValid(numCPUs: nat, execArgv: seq<string>)
    ensures Valid(Initial(numCPUs, execArgv)) && Balanced(Initial(numCPUs, execArgv))
  {
  }

  lemma AddPoolValid(s: State, moduleSpec: string, workers: Option<int>, logId: Option<string>)
    requires Valid(s)
    ensures var t := AddPool(s, moduleSpec, workers, logId);
      Valid(t) && Balanced(t) == Balanced(s) && |t.pools| == |s.pools| + 1
      && t.pools[|s.pools|].workers == [] && t.pools[|s.pools|].options.workers == workers.GetOr(s.numCPUs)
  {
    var t := AddPool(s, moduleSpec, workers, logId);
    forall p | 0 <= p < |t.pools| ensures PoolWellFormed(t, p) {
      if p < |s.pools| { assert PoolWellFormed(s, p); }
    }
    forall w | 0 <= w < |t.forked| ensures WorkerWellFormed(t, w) {
      assert WorkerWellFormed(s, w);
    }
  }

  /** Giving worker `w` a different callback (assigning or clearing a task) keeps the invariant. */
  lemma SetCallbackValid(s: State, w: WorkerId, c: Option<Callback>)
    requires Valid(s) && w < |s.forked|
    ensures Valid(s.(forked := s.forked[w := s.forked[w].(callback := c)]))
  {
    var t := s.(forked := s.forked[w := s.forked[w].(callback := c)]);
    forall p | 0 <= p < |t.pools| ensures PoolWellFormed(t, p) {
      assert PoolWellFormed(s, p);
    }
    forall x | 0 <= x < |t.forked| ensures WorkerWellFormed(t, x) {
      assert WorkerWellFormed(s, x);
    }
  }

  lemma ForkValid(s: State, p: PoolId)
    requires Valid(s) && p < |s.pools| && |s.pools[p].workers| < s.pools[p].options.workers
    ensures Valid(ForkWorker(s, p))
  {
    var t := ForkWorker(s, p);
    var n := |s.forked|;
    forall q | 0 <= q < |t.pools| ensures PoolWellFormed(t, q) {
      assert PoolWellFormed(s, q);
      if q == p {
        var ws := s.pools[p].workers;
        assert n !in ws;
        assert t.pools[p].workers == ws + [n];
        forall x | x in ws + [n] ensures x < |t.forked| && t.forked[x].pool == p && !t.forked[x].killed {
          if x != n { assert x in ws; }
        }
      } else {
        assert t.pools[q] == s.pools[q];
      }
    }
    forall x | 0 <= x < |t.forked| ensures WorkerWellFormed(t, x) {
      if x < n {
        assert WorkerWellFormed(s, x);
        assert t.forked[x] == s.forked[x];
      }
    }
  }

  lemma SendValid(s: State, p: PoolId, message: Message, callback: Callback)
    requires Valid(s) && p < |s.pools|
    ensures Valid(Send(s, p, message, callback))
    ensures |Send(s, p, message, callback).forked| >= |s.forked|
  {
    match Admit(s, p)
    case Reuse(w) =>
      SetCallbackValid(s, w, Some(callback));
      RecordsValid(s.(forked := s.forked[w := s.forked[w].(callback := Some(callback))]), Send(s, p, message, callback));
    case Fork =>
      ForkValid(s, p);
      var f := ForkWorker(s, p);
      var n := |s.forked|;
      SetCallbackValid(f, n, Some(callback));
      RecordsValid(f.(forked := f.forked[n := f.forked[n].(callback := Some(callback))]), Send(s, p, message, callback));
    case Enqueue =>
      RecordsValid(s, Send(s, p, message, callback));
  }

  /** `send` never revives or kills a worker, nor reassigns one to another pool. */
  lemma SendKeepsWorkers(s: State, p: PoolId, message: Message, callback: Callback)
    requires p < |s.pools|
    ensures var t := Send(s, p, message, callback);
      |t.forked| >= |s.forked|
      && forall x :: 0 <= x < |s.forked| ==> t.forked[x].killed == s.forked[x].killed && t.forked[x].pool == s.forked[x].pool
  {
  }

  /** Changing only the queue, the pending list or the logs keeps the pools and workers well formed. */
  lemma RecordsValid(s: State, t: State)
    requires Valid(s)
    requires t.totalWorkers == s.totalWorkers && t.pools == s.pools && t.forked == s.forked
    requires forall i :: 0 <= i < |t.queue| ==> t.queue[i].pool < |t.pools|
    requires forall i :: 0 <= i < |t.pending| ==> t.pending[i].worker < |t.forked|
    ensures Valid(t)
  {
    forall q | 0 <= q < |t.pools| ensures PoolWellFormed(t, q) {
      assert PoolWellFormed(s, q);
    }
    forall x | 0 <= x < |t.forked| ensures WorkerWellFormed(t, x) {
      assert WorkerWellFormed(s, x);
    }
  }

  lemma CompleteValid(s: State, w: WorkerId, reply: Reply)
    requires Valid(s) && w < |s.forked|
    ensures Valid(Complete(s, w, reply))
  {
    var cleared := s.(forked := s.forked[w := s.forked[w].(callback := None)]);
    SetCallbackValid(s, w, None);
    var dispatched := cleared;
    if |s.queue| > 0 {
      var popped := cleared.(queue := s.queue[1..]);
      RecordsValid(cleared, popped);
      SendValid(popped, s.queue[0].pool, s.queue[0].message, s.queue[0].callback);
      dispatched := Send(popped, s.queue[0].pool, s.queue[0].message, s.queue[0].callback);
    }
    RecordsValid(dispatched, dispatched.(pending := dispatched.pending + [Deferred(w, s.forked[w].callback, reply)]));
  }

  lemma EvictValid(s: State, w: WorkerId)
    requires Valid(s) && w < |s.forked|
    ensures WorkerWellFormed(s, w) && Valid(Evict(s, w))
  {
    assert WorkerWellFormed(s, w);
    var p := s.forked[w].pool;
    var t := Evict(s, w);
    forall q | 0 <= q < |t.pools| ensures PoolWellFormed(t, q) {
      assert PoolWellFormed(s, q);
      if q == p {
        WithoutNoDup(s.pools[p].workers, w);
      }
    }
    forall x | 0 <= x < |t.forked| ensures WorkerWellFormed(t, x) {
      assert WorkerWellFormed(s, x);
    }
  }

  lemma TickValid(s: State)
    requires Valid(s) && |s.pending| > 0
    ensures Valid(Tick(s))
  {
    var d := s.pending[0];
    var rest := s.(pending := s.pending[1..]);
    RecordsValid(s, rest);
    var evicted := rest;
    if d.reply.fatal {
      EvictValid(rest, d.worker);
      evicted := Evict(rest, d.worker);
    }
    assert WorkerWellFormed(s, d.worker);
    var p := s.forked[d.worker].pool;
    RecordsValid(evicted, evicted.(activeTasks := evicted.activeTasks - 1,
                                   outcomes := evicted.outcomes + [Settle(p, d.callback, d.reply)]));
  }

  lemma ExitValid(s: State, w: WorkerId, code: Option<int>, signal: Option<string>)
    requires Valid(s) && w < |s.forked|
    ensures Valid(Exit(s, w, code, signal))
  {
    if !s.forked[w].killed && IsCrash(code, signal) {
      CompleteValid(s, w, CrashReply(signal));
    }
  }

  lemma SendAllValid(s: State, p: PoolId, message: Message)
    requires Valid(s) && p < |s.pools|
    ensures Valid(SendAll(s, p, message))
  {
    RecordsValid(s, SendAll(s, p, message));
  }

  // ---------------------------------------------------------------- send

  /**
   * A saturated `send` only queues: the entry `{pool, message, callback}` goes to the
   * tail of the shared queue and nothing else changes, whatever the pool looks like.
   */
  lemma SaturatedSendOnlyQueues(s: State, p: PoolId, message: Message, callback: Callback)
    requires p < |s.pools| && Saturated(s)
    ensures Send(s, p, message, callback) == s.(queue := s.queue + [QueuedTask(p, message, callback)])
  {
  }

  /**
   * Below the ceiling, the first idle worker of the pool in list order gets the task:
   * only its callback changes, the count of active tasks goes up by exactly one, one
   * message is sent to it, and no worker is forked.
   */
  lemma IdleWorkerReused(s: State, p: PoolId, message: Message, callback: Callback, i: nat)
    requires p < |s.pools| && !Saturated(s)
    requires i < |s.pools[p].workers| && IsIdle(s.forked, s.pools[p].workers[i])
    requires forall j :: 0 <= j < i ==> !IsIdle(s.forked, s.pools[p].workers[j])
    ensures var w := s.pools[p].workers[i];
      Send(s, p, message, callback)
      == s.(activeTasks := s.activeTasks + 1,
            forked := s.forked[w := s.forked[w].(callback := Some(callback))],
            deliveries := s.deliveries + [Delivery(w, Content(message))])
  {
    var ws := s.pools[p].workers;
    var k := FirstIdle(ws, s.forked);
    assert k == Some(i) by {
      assert k.Some?;
      assert !(k.value < i);
      assert !(k.value > i);
    }
  }

  /**
   * A fork happens exactly when the pool is below the ceiling, has no idle worker and
   * has fewer workers than it wants; otherwise the forked workers stay as they are.
   */
  lemma ForkCondition(s: State, p: PoolId, message: Message, callback: Callback)
    requires p < |s.pools|
    ensures var t := Send(s, p, message, callback);
      (|t.forked| == |s.forked| + 1
       <==> !Saturated(s)
            && (forall j :: 0 <= j < |s.pools[p].workers| ==> !IsIdle(s.forked, s.pools[p].workers[j]))
            && |s.pools[p].workers| < s.pools[p].options.workers)
      && (|t.forked| == |s.forked| || |t.forked| == |s.forked| + 1)
  {
    var ws := s.pools[p].workers;
    if !Saturated(s) && FirstIdle(ws, s.forked).Some? {
      var i := FirstIdle(ws, s.forked).value;
      assert IsIdle(s.forked, ws[i]);
    }
  }

  /**
   * What a fork does: both fork counters go up by one, the new worker is appended last
   * to the pool's list with the rewritten arguments, is sent the pool's module and then
   * the task, and holds the task's callback.
   */
  lemma ForkEffects(s: State, p: PoolId, message: Message, callback: Callback)
    requires p < |s.pools| && !Saturated(s)
    requires forall j :: 0 <= j < |s.pools[p].workers| ==> !IsIdle(s.forked, s.pools[p].workers[j])
    requires |s.pools[p].workers| < s.pools[p].options.workers
    ensures var pool := s.pools[p];
      var n := |s.forked|;
      var args := WorkerExecArgv(s.execArgv, pool.options.logId, pool.totalWorkers + 1, s.totalWorkers + 1);
      Send(s, p, message, callback)
      == s.(activeTasks := s.activeTasks + 1,
            totalWorkers := s.totalWorkers + 1,
            pools := s.pools[p := pool.(workers := pool.workers + [n], totalWorkers := pool.totalWorkers + 1)],
            forked := s.forked + [Worker(p, Some(callback), args, false)],
            deliveries := s.deliveries + [Delivery(n, ModuleSpec(pool.moduleSpec)), Delivery(n, Content(message))])
  {
    assert FirstIdle(s.pools[p].workers, s.forked).None?;
  }

  /**
   * Otherwise (below the ceiling, no idle worker, pool complete) the task is queued and
   * nothing else changes.
   */
  lemma FullPoolQueues(s: State, p: PoolId, message: Message, callback: Callback)
    requires p < |s.pools|
    requires forall j :: 0 <= j < |s.pools[p].workers| ==> !IsIdle(s.forked, s.pools[p].workers[j])
    requires |s.pools[p].workers| >= s.pools[p].options.workers
    ensures Send(s, p, message, callback) == s.(queue := s.queue + [QueuedTask(p, message, callback)])
  {
    assert FirstIdle(s.pools[p].workers, s.forked).None?;
  }

  /**
   * `send` adds at most one active task, and only from below the ceiling: started from
   * a state within the ceiling, it stays within it.
   */
  lemma SendRespectsCeiling(s: State, p: PoolId, message: Message, callback: Callback)
    requires p < |s.pools|
    ensures var t := Send(s, p, message, callback);
      t.activeTasks == s.activeTasks
      || (t.activeTasks == s.activeTasks + 1
          && t.activeTasks + (if s.isBackground then 1 else 0) <= Ceiling(s.numCPUs))
  {
  }

  /** `send` hands a task to a worker exactly when it counts one more active task. */
  lemma SendBalanced(s: State, p: PoolId, message: Message, callback: Callback)
    requires Valid(s) && p < |s.pools|
    ensures Balanced(Send(s, p, message, callback)) == Balanced(s)
  {
    match Admit(s, p)
    case Reuse(w) =>
      BusyCountUpdate(s.forked, w, s.forked[w].(callback := Some(callback)));
    case Fork =>
      var f := ForkWorker(s, p);
      var n := |s.forked|;
      BusyCountAppend(s.forked, Worker(p, None, f.forked[n].execArgv, false));
      BusyCountUpdate(f.forked, n, f.forked[n].(callback := Some(callback)));
    case Enqueue =>
  }

  /** `sendAll` sends one message to each worker of the pool in order and changes nothing else. */
  lemma SendAllNoAccounting(s: State, p: PoolId, message: Message)
    requires p < |s.pools|
    ensures var t := SendAll(s, p, message);
      var ws := s.pools[p].workers;
      t.(deliveries := s.deliveries) == s
      && |t.deliveries| == |s.deliveries| + |ws|
      && t.deliveries[..|s.deliveries|] == s.deliveries
      && forall i :: 0 <= i < |ws| ==> t.deliveries[|s.deliveries| + i] == Delivery(ws[i], Content(message))
  {
  }

  // ---------------------------------------------------------------- completion

  /**
   * The immediate half of a completion: the worker's callback is captured into the
   * pending completion and cleared; with an empty queue nothing else happens; otherwise
   * exactly the head of the queue leaves it, to be dispatched or to rejoin at the tail.
   * No outcome is produced yet.
   */
  lemma CompleteImmediate(s: State, w: WorkerId, reply: Reply)
    requires Valid(s) && w < |s.forked|
    ensures var t := Complete(s, w, reply);
      t.pending == s.pending + [Deferred(w, s.forked[w].callback, reply)]
      && t.outcomes == s.outcomes
      && (|s.queue| == 0 ==>
            t == s.(forked := s.forked[w := s.forked[w].(callback := None)],
                    pending := s.pending + [Deferred(w, s.forked[w].callback, reply)]))
      && (|s.queue| > 0 ==> t.queue == s.queue[1..] || t.queue == s.queue[1..] + [s.queue[0]])
  {
  }

  /**
   * The re-dispatch still counts the finishing task, so when that task kept the
   * scheduler at its ceiling the head of the queue is pushed back at the tail: the only
   * other change is that the worker is idle and its completion pending.
   */
  lemma SaturatedCompletionRequeuesAtTail(s: State, w: WorkerId, reply: Reply)
    requires Valid(s) && w < |s.forked|
    requires |s.queue| > 0 && Saturated(s)
    ensures Complete(s, w, reply)
         == s.(forked := s.forked[w := s.forked[w].(callback := None)],
               queue := s.queue[1..] + [s.queue[0]],
               pending := s.pending + [Deferred(w, s.forked[w].callback, reply)])
  {
  }

  /**
   * When the head of the queue belongs to the finishing worker's own pool and the
   * scheduler is below its ceiling, the head is dispatched: the queue loses its head
   * and one more task is active.
   */
  lemma CompletionDispatchesHead(s: State, w: WorkerId, reply: Reply)
    requires Valid(s) && w < |s.forked| && !s.forked[w].killed
    requires |s.queue| > 0 && s.queue[0].pool == s.forked[w].pool && !Saturated(s)
    ensures var t := Complete(s, w, reply);
      t.queue == s.queue[1..] && t.activeTasks == s.activeTasks + 1
  {
    assert WorkerWellFormed(s, w);
    var cleared := s.(forked := s.forked[w := s.forked[w].(callback := None)], queue := s.queue[1..]);
    var p := s.queue[0].pool;
    var ws := s.pools[p].workers;
    var i :| 0 <= i < |ws| && ws[i] == w;
    assert IsIdle(cleared.forked, ws[i]);
    assert FirstIdle(ws, cleared.forked).Some?;
  }

  /**
   * The accounting survives a completion exactly when it is for a busy worker: an
   * out-of-band reply (the worker held no callback) leaves the active-task count one
   * below the tasks actually in flight once its deferred half has run.
   */
  lemma CompleteBalanced(s: State, w: WorkerId, reply: Reply)
    requires Valid(s) && Balanced(s) && w < |s.forked|
    ensures var t := Complete(s, w, reply);
      (Balanced(t) <==> s.forked[w].callback.Some?)
      && (s.forked[w].callback.None? ==> t.activeTasks == BusyCount(t.forked) + |t.pending| - 1)
  {
    CompleteAccounting(s, w, reply);
  }

  /**
   * The immediate half frees the worker's task without counting it off: the gap between
   * the active-task count and the busy workers grows by one if the worker was busy.
   */
  lemma CompleteAccounting(s: State, w: WorkerId, reply: Reply)
    requires Valid(s) && w < |s.forked|
    ensures var t := Complete(s, w, reply);
      t.activeTasks - BusyCount(t.forked) == s.activeTasks - BusyCount(s.forked) + Busy(s.forked[w])
      && |t.pending| == |s.pending| + 1
  {
    var cleared := s.(forked := s.forked[w := s.forked[w].(callback := None)]);
    BusyCountUpdate(s.forked, w, s.forked[w].(callback := None));
    SetCallbackValid(s, w, None);
    if |s.queue| > 0 {
      var popped := cleared.(queue := s.queue[1..]);
      RecordsValid(cleared, popped);
      SendAccounting(popped, s.queue[0].pool, s.queue[0].message, s.queue[0].callback);
    }
  }

  /** `send` moves the active-task count and the busy-worker count by the same amount. */
  lemma SendAccounting(s: State, p: PoolId, message: Message, callback: Callback)
    requires Valid(s) && p < |s.pools|
    ensures var t := Send(s, p, message, callback);
      t.activeTasks - BusyCount(t.forked) == s.activeTasks - BusyCount(s.forked) && t.pending == s.pending
  {
    match Admit(s, p)
    case Reuse(w) =>
      BusyCountUpdate(s.forked, w, s.forked[w].(callback := Some(callback)));
    case Fork =>
      var f := ForkWorker(s, p);
      var n := |s.forked|;
      BusyCountAppend(s.forked, Worker(p, None, f.forked[n].execArgv, false));
      BusyCountUpdate(f.forked, n, f.forked[n].(callback := Some(callback)));
    case Enqueue =>
  }

  /**
   * The deferred half of the oldest completion: the active-task count drops by exactly
   * one whether or not a callback was captured; the queue and the deliveries are
   * untouched; exactly one outcome is added (the callback called once with the error and
   * the data, or one pool error); a fatal reply kills that worker and removes it alone
   * from its pool's list, while a non-fatal one leaves pools and workers unchanged.
   */
  lemma TickEffects(s: State)
    requires Valid(s) && |s.pending| > 0
    ensures var t := Tick(s);
      var d := s.pending[0];
      var p := s.forked[d.worker].pool;
      t.activeTasks == s.activeTasks - 1
      && t.pending == s.pending[1..] && t.queue == s.queue && t.deliveries == s.deliveries
      && t.totalWorkers == s.totalWorkers && t.isBackground == s.isBackground
      && t.outcomes == s.outcomes + [Settle(p, d.callback, d.reply)]
      && (d.callback.Some? ==> Settle(p, d.callback, d.reply) == Called(d.callback.value, ReplyFailure(d.reply), d.reply.data))
      && (d.callback.None? && ReplyFailure(d.reply).None? ==> Settle(p, d.callback, d.reply) == Emitted(p, OutOfBandData(d.reply.data)))
      && (!d.reply.fatal ==> t.pools == s.pools && t.forked == s.forked)
      && (d.reply.fatal ==>
            |t.forked| == |s.forked| && t.forked[d.worker] == s.forked[d.worker].(killed := true)
            && (forall x :: 0 <= x < |s.forked| && x != d.worker ==> t.forked[x] == s.forked[x])
            && |t.pools| == |s.pools|
            && t.pools[p] == s.pools[p].(workers := Without(s.pools[p].workers, d.worker))
            && (forall q :: 0 <= q < |s.pools| && q != p ==> t.pools[q] == s.pools[q]))
  {
  }

  /** A fatal completion of a listed worker drops it from the list and keeps the others in order. */
  lemma FatalTickKeepsOrder(s: State, i: nat)
    requires Valid(s) && |s.pending| > 0 && s.pending[0].reply.fatal
    requires var p := s.forked[s.pending[0].worker].pool;
      i < |s.pools[p].workers| && s.pools[p].workers[i] == s.pending[0].worker
    ensures var p := s.forked[s.pending[0].worker].pool;
      var ws := s.pools[p].workers;
      Tick(s).pools[p].workers == ws[..i] + ws[i + 1..]
  {
    var p := s.forked[s.pending[0].worker].pool;
    assert PoolWellFormed(s, p);
    WithoutKeepsOrder(s.pools[p].workers, i);
  }

  lemma TickBalanced(s: State)
    requires Valid(s) && Balanced(s) && |s.pending| > 0
    ensures Balanced(Tick(s))
  {
    var d := s.pending[0];
    if d.reply.fatal {
      BusyCountUpdate(s.forked, d.worker, s.forked[d.worker].(killed := true));
    }
  }

  /**
   * Start to finish, the completion of a busy worker with nothing else pending invokes
   * that worker's callback exactly once with the reply's error and data, and nothing
   * else produces an outcome.
   */
  lemma CompletionCallsBackOnce(s: State, w: WorkerId, reply: Reply)
    requires Valid(s) && w < |s.forked| && s.forked[w].callback.Some? && s.pending == []
    ensures Valid(Complete(s, w, reply))
      && Tick(Complete(s, w, reply)).outcomes
         == s.outcomes + [Called(s.forked[w].callback.value, ReplyFailure(reply), reply.data)]
      && Tick(Complete(s, w, reply)).pending == []
  {
    CompleteValid(s, w, reply);
  }

  // ---------------------------------------------------------------- exit and error observers

  /** An exit with a code, however abnormal, never synthesizes a completion. */
  lemma ExitWithCodeIgnored(s: State, w: WorkerId, code: int, signal: Option<string>)
    requires Valid(s) && w < |s.forked|
    ensures Exit(s, w, Some(code), signal) == s
  {
  }

  /** Nor does a SIGKILL from outside, nor any exit of a worker whose observer was removed. */
  lemma ExitIgnoredWhenKilled(s: State, w: WorkerId, code: Option<int>, signal: Option<string>)
    requires Valid(s) && w < |s.forked|
    requires s.forked[w].killed || signal == Some("SIGKILL")
    ensures Exit(s, w, code, signal) == s
  {
  }

  /**
   * A death by any other signal of a worker still observed becomes a fatal completion
   * of that worker, carrying "Worker exited unexpectedly, signal <signal>".
   */
  lemma CrashBecomesFatalCompletion(s: State, w: WorkerId, signal: Option<string>)
    requires Valid(s) && w < |s.forked| && !s.forked[w].killed && signal != Some("SIGKILL")
    ensures var t := Exit(s, w, None, signal);
      t == Complete(s, w, CrashReply(signal))
      && |t.pending| == |s.pending| + 1
      && t.pending[|s.pending|].worker == w && t.pending[|s.pending|].reply.fatal
      && ReplyFailure(t.pending[|s.pending|].reply) == Some(Failure(ExitMessage + SignalText(signal), None))
  {
    CompleteImmediate(s, w, CrashReply(signal));
  }

  /**
   * Once the deferred half of a fatal completion has run, the worker's exit observer is
   * gone: a later exit of that worker, with any code and signal, changes nothing.
   */
  lemma EvictedWorkerExitIgnored(s: State, code: Option<int>, signal: Option<string>)
    requires Valid(s) && |s.pending| > 0 && s.pending[0].reply.fatal
    ensures Valid(Tick(s)) && Exit(Tick(s), s.pending[0].worker, code, signal) == Tick(s)
  {
    TickValid(s);
  }

  // ---------------------------------------------------------------- a worked scenario
  //
  // Ceiling two, background off, a pool of one worker, three sends before anything
  // completes: the first forks the worker and runs, the other two are queued. When the
  // worker finishes, the second is dispatched to it and the third stays queued; on the
  // next tick the first callback is called with the reply's data.

  function ScenarioPool(workers: seq<WorkerId>, forks: nat): Pool {
    Pool("task-module", Options(1, None), workers, forks)
  }

  /** The state after the three sends. */
  function ScenarioQueued(): State {
    State(2, [], [QueuedTask(0, 2, Supplied(2)), QueuedTask(0, 3, Supplied(3))], 1, 1, false,
          [ScenarioPool([0], 1)], [Worker(0, Some(Supplied(1)), [], false)], [],
          [Delivery(0, ModuleSpec("task-module")), Delivery(0, Content(1))], [])
  }

  lemma ScenarioSends()
    ensures var s0 := AddPool(Initial(2, []), "task-module", Some(1), None);
      Send(Send(Send(s0, 0, 1, Supplied(1)), 0, 2, Supplied(2)), 0, 3, Supplied(3)) == ScenarioQueued()
  {
    var s0 := AddPool(Initial(2, []), "task-module", Some(1), None);
    assert s0.pools == [ScenarioPool([], 0)];
    assert Admit(s0, 0) == Fork;
    assert WorkerExecArgv([], None, 1, 1) == [];
    var f := ForkWorker(s0, 0);
    assert s0.pools[0].(workers := s0.pools[0].workers + [0], totalWorkers := 1) == ScenarioPool([0], 1);
    assert s0.pools[0 := ScenarioPool([0], 1)] == [ScenarioPool([0], 1)];
    assert f.pools == [ScenarioPool([0], 1)];
    assert f.forked == [Worker(0, None, [], false)];
    assert f.deliveries == [Delivery(0, ModuleSpec("task-module"))];
    assert f.totalWorkers == 1;
    assert ForkWorker(s0, 0) == ScenarioQueued().(queue := [], activeTasks := 0, forked := [Worker(0, None, [], false)],
                                                  deliveries := [Delivery(0, ModuleSpec("task-module"))]);
    var s1 := Send(s0, 0, 1, Supplied(1));
    assert s1 == ScenarioQueued().(queue := []);
    assert FirstIdle([0], s1.forked) == None;
    var s2 := Send(s1, 0, 2, Supplied(2));
    assert s2 == ScenarioQueued().(queue := [QueuedTask(0, 2, Supplied(2))]);
    assert FirstIdle([0], s2.forked) == None;
  }

  /** The first completion hands the second task to the worker and leaves the third queued. */
  lemma ScenarioCompletion()
    ensures Valid(ScenarioQueued())
    ensures var t := Complete(ScenarioQueued(), 0, Reply(None, None, false, Some(10)));
      t.forked == [Worker(0, Some(Supplied(2)), [], false)]
      && t.queue == [QueuedTask(0, 3, Supplied(3))]
      && t.deliveries == ScenarioQueued().deliveries + [Delivery(0, Content(2))]
      && Valid(t)
      && Tick(t).outcomes == [Called(Supplied(1), None, Some(10))]
      && Tick(t).activeTasks == 1
  {
    var s := ScenarioQueued();
    assert PoolWellFormed(s, 0);
    assert WorkerWellFormed(s, 0);
    var c := s.(forked := [Worker(0, None, [], false)], queue := [QueuedTask(0, 3, Supplied(3))]);
    assert FirstIdle([0], c.forked) == Some(0);
    CompleteValid(s, 0, Reply(None, None, false, Some(10)));
  }
}
