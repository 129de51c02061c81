/**
 * Three places where the completion handler does not keep the promises the scheduler
 * makes (every accepted task is called back exactly once; queued work proceeds as
 * workers free up; the active-task count is the number of tasks in flight). For each,
 * a lemma about the steps as written in `PoolModel` exhibits the input that shows it,
 * and a corrected definition carries the property that was evidently intended.
 */
module Findings {
  import opened Wrappers
  import opened PoolModel
  import PoolProperties

  // ------------------------------------------------------------------------------
  // 1. A fatal completion can hand the next queued task to the worker it then kills.

  /** Every worker that holds a callback is alive, so its reply or crash can still arrive. */
  predicate AssignmentsLive(s: State) {
    forall w :: 0 <= w < |s.forked| && s.forked[w].callback.Some? ==> !s.forked[w].killed
  }

  /** Every fatal completion still waiting for its tick is of a worker already killed. */
  predicate FatalEvicted(s: State) {
    forall i :: 0 <= i < |s.pending| && s.pending[i].reply.fatal && s.pending[i].worker < |s.forked|
      ==> s.forked[s.pending[i].worker].killed
  }

  /**
   * As written: at the ceiling's edge, a fatal reply of the only idle-able worker of the
   * pool at the head of the queue passes the queued task to that very worker, and the tick
   * then kills it, observers and all. The task's callback can never be called and its
   * slot in the active-task count is never given back.
   */
  lemma FatalCompletionStrandsQueuedTask(s: State, w: WorkerId, reply: Reply)
    requires Valid(s) && w < |s.forked| && !s.forked[w].killed && s.pending == [] && reply.fatal
    requires |s.queue| > 0 && s.queue[0].pool == s.forked[w].pool && !Saturated(s)
    requires var ws := s.pools[s.forked[w].pool].workers;
      forall j :: 0 <= j < |ws| && ws[j] != w ==> !IsIdle(s.forked, ws[j])
    ensures Valid(Complete(s, w, reply))
    ensures var t := Tick(Complete(s, w, reply));
      t.forked[w].killed && t.forked[w].callback == Some(s.queue[0].callback)
      && t.pending == [] && !AssignmentsLive(t)
  {
    PoolProperties.CompleteValid(s, w, reply);
    var p := s.forked[w].pool;
    var ws := s.pools[p].workers;
    var cleared := s.(forked := s.forked[w := s.forked[w].(callback := None)], queue := s.queue[1..]);
    assert PoolWellFormed(s, p) && WorkerWellFormed(s, w);
    var i :| 0 <= i < |ws| && ws[i] == w;
    assert IsIdle(cleared.forked, ws[i]);
    var k := FirstIdle(ws, cleared.forked);
    assert k.Some? && ws[k.value] == w by {
      assert k.Some?;
      assert IsIdle(cleared.forked, ws[k.value]);
    }
    assert Admit(cleared, p) == Reuse(w);
  }

  /** The input: the one-worker pool with two queued tasks, whose worker replies fatally. */
  lemma FatalCompletionStrandsScenario()
    ensures Valid(PoolProperties.ScenarioQueued())
    ensures Valid(Complete(PoolProperties.ScenarioQueued(), 0, Reply(Some("boom"), None, true, None)))
    ensures var t := Tick(Complete(PoolProperties.ScenarioQueued(), 0, Reply(Some("boom"), None, true, None)));
      t.forked == [Worker(0, Some(Supplied(2)), [], true)]
      && t.pools[0].workers == [] && t.pending == [] && t.activeTasks == 1
      && t.queue == [QueuedTask(0, 3, Supplied(3))]
  {
    var s := PoolProperties.ScenarioQueued();
    var reply := Reply(Some("boom"), None, true, None);
    PoolProperties.ScenarioCompletion();
    assert PoolWellFormed(s, 0);
    FatalCompletionStrandsQueuedTask(s, 0, reply);
    var c := s.(forked := [Worker(0, None, [], false)], queue := [QueuedTask(0, 3, Supplied(3))]);
    assert FirstIdle([0], c.forked) == Some(0);
    PoolProperties.CompleteValid(s, 0, reply);
    assert Complete(s, 0, reply).pools[0].workers == [0];
    assert Without([0], 0) == [];
  }

  /**
   * Corrected: a fatal reply evicts its worker (observers removed, process killed, worker
   * unlisted) before the queue is re-dispatched, so the just-freed slot can only go to a
   * live worker. The tick is unchanged; its eviction then finds nothing left to do.
   */
  function CompleteEvicting(s: State, w: WorkerId, reply: Reply): State
    requires Valid(s) && w < |s.forked|
  {
    var cleared := s.(forked := s.forked[w := s.forked[w].(callback := None)]);
    var released := if reply.fatal then Evict(cleared, w) else cleared;
    var dispatched :=
      if |s.queue| == 0 then released
      else Send(released.(queue := s.queue[1..]), s.queue[0].pool, s.queue[0].message, s.queue[0].callback);
    dispatched.(pending := dispatched.pending + [Deferred(w, s.forked[w].callback, reply)])
  }

  /** The exit observer over the corrected completion. */
  function ExitEvicting(s: State, w: WorkerId, code: Option<int>, signal: Option<string>): State
    requires Valid(s) && w < |s.forked|
  {
    if !s.forked[w].killed && IsCrash(code, signal) then CompleteEvicting(s, w, CrashReply(signal)) else s
  }

  predicate Sound(s: State) {
    Valid(s) && AssignmentsLive(s) && FatalEvicted(s)
  }

  lemma SendKeepsSound(s: State, p: PoolId, message: Message, callback: Callback)
    requires Sound(s) && p < |s.pools|
    ensures Sound(Send(s, p, message, callback))
  {
    PoolProperties.SendValid(s, p, message, callback);
    var t := Send(s, p, message, callback);
    match Admit(s, p)
    case Reuse(w) =>
      var ws := s.pools[p].workers;
      var i := FirstIdle(ws, s.forked).value;
      assert PoolWellFormed(s, p);
      assert ws[i] in ws;
      assert w == ws[i];
      assert !s.forked[w].killed;
    case Fork =>
    case Enqueue =>
  }

  lemma ClearKeepsSound(s: State, w: WorkerId)
    requires Sound(s) && w < |s.forked|
    ensures Sound(s.(forked := s.forked[w := s.forked[w].(callback := None)]))
  {
    PoolProperties.SetCallbackValid(s, w, None);
  }

  lemma EvictKeepsSound(s: State, w: WorkerId)
    requires Sound(s) && w < |s.forked| && s.forked[w].callback.None?
    ensures Sound(Evict(s, w)) && Evict(s, w).forked[w].killed
  {
    PoolProperties.EvictValid(s, w);
  }

  lemma PopKeepsSound(s: State)
    requires Sound(s) && |s.queue| > 0
    ensures Sound(s.(queue := s.queue[1..]))
  {
    PoolProperties.RecordsValid(s, s.(queue := s.queue[1..]));
  }

  lemma DeferKeepsSound(s: State, d: Deferred)
    requires Sound(s) && d.worker < |s.forked| && (d.reply.fatal ==> s.forked[d.worker].killed)
    ensures Sound(s.(pending := s.pending + [d]))
  {
    PoolProperties.RecordsValid(s, s.(pending := s.pending + [d]));
  }

  lemma CompleteEvictingSound(s: State, w: WorkerId, reply: Reply)
    requires Sound(s) && w < |s.forked|
    ensures Sound(CompleteEvicting(s, w, reply))
  {
    var cleared := s.(forked := s.forked[w := s.forked[w].(callback := None)]);
    ClearKeepsSound(s, w);
    var released := cleared;
    if reply.fatal {
      EvictKeepsSound(cleared, w);
      released := Evict(cleared, w);
    }
    assert reply.fatal ==> released.forked[w].killed;
    var dispatched := released;
    if |s.queue| > 0 {
      var popped := released.(queue := s.queue[1..]);
      PopKeepsSound(released);
      SendKeepsSound(popped, s.queue[0].pool, s.queue[0].message, s.queue[0].callback);
      PoolProperties.SendKeepsWorkers(popped, s.queue[0].pool, s.queue[0].message, s.queue[0].callback);
      dispatched := Send(popped, s.queue[0].pool, s.queue[0].message, s.queue[0].callback);
    }
    DeferKeepsSound(dispatched, Deferred(w, s.forked[w].callback, reply));
  }

  lemma TickKeepsSound(s: State)
    requires Sound(s) && |s.pending| > 0
    ensures Sound(Tick(s))
  {
    PoolProperties.TickValid(s);
    var d := s.pending[0];
    assert d.reply.fatal ==> s.forked[d.worker].killed;
    var t := Tick(s);
    forall i | 0 <= i < |t.pending| && t.pending[i].reply.fatal && t.pending[i].worker < |t.forked|
      ensures t.forked[t.pending[i].worker].killed
    {
      assert t.pending[i] == s.pending[i + 1];
    }
  }

  lemma ExitEvictingSound(s: State, w: WorkerId, code: Option<int>, signal: Option<string>)
    requires Sound(s) && w < |s.forked|
    ensures Sound(ExitEvicting(s, w, code, signal))
  {
    if !s.forked[w].killed && IsCrash(code, signal) {
      CompleteEvictingSound(s, w, CrashReply(signal));
    }
  }

  /**
   * On the input above, the corrected completion gives the second task to a fresh
   * worker that replaces the dead one, which stays killed and idle.
   */
  lemma FatalCompletionEvictingScenario()
    ensures Sound(PoolProperties.ScenarioQueued())
    ensures Sound(CompleteEvicting(PoolProperties.ScenarioQueued(), 0, Reply(Some("boom"), None, true, None)))
    ensures var t := Tick(CompleteEvicting(PoolProperties.ScenarioQueued(), 0, Reply(Some("boom"), None, true, None)));
      t.forked == [Worker(0, None, [], true), Worker(0, Some(Supplied(2)), [], false)]
      && t.pools[0].workers == [1] && t.pending == [] && t.activeTasks == 1
      && t.queue == [QueuedTask(0, 3, Supplied(3))]
  {
    var s := PoolProperties.ScenarioQueued();
    var reply := Reply(Some("boom"), None, true, None);
    PoolProperties.ScenarioCompletion();
    assert Without([0], 0) == [];
    CompleteEvictingSound(s, 0, reply);
    var e := Evict(s.(forked := [Worker(0, None, [], false)]), 0);
    assert e.pools[0].workers == [];
    assert FirstIdle([], e.forked) == None;
  }

  // ------------------------------------------------------------------------------
  // 2. The re-dispatch still counts the finishing task.
  // 3. The tick gives back a slot even when the reply was out of band.

  /**
   * As written: a completion that keeps the scheduler at its ceiling only for the
   * finishing task itself rotates the head of the queue behind the later entries. With
   * background mode on at most two CPUs (one slot) every completion of a busy worker
   * does so, since the finishing task is still counted when the queue is retried.
   */
  lemma BackgroundCompletionRequeuesHead(s: State, w: WorkerId, reply: Reply)
    requires Valid(s) && Balanced(s) && s.isBackground && s.numCPUs <= 2
    requires w < |s.forked| && s.forked[w].callback.Some? && |s.queue| > 0
    ensures Complete(s, w, reply).queue == s.queue[1..] + [s.queue[0]]
  {
    PoolProperties.BusyCountUpdate(s.forked, w, s.forked[w].(callback := None));
    PoolProperties.SaturatedCompletionRequeuesAtTail(s, w, reply);
  }

  /**
   * Nor does a `send` help: it serves its own task (or queues it behind the others) and
   * leaves every entry already queued where it was.
   */
  lemma SendKeepsQueued(s: State, p: PoolId, message: Message, callback: Callback)
    requires p < |s.pools|
    ensures var t := Send(s, p, message, callback);
      |s.queue| <= |t.queue| && t.queue[..|s.queue|] == s.queue
  {
    var t := Send(s, p, message, callback);
    if Admit(s, p).Enqueue? {
      assert t.queue == s.queue + [QueuedTask(p, message, callback)];
    }
  }

  /**
   * The concrete case: background mode on two CPUs, one pool of one worker running
   * task 1 with task 2 queued. After the completion of task 1, task 2 is still queued with
   * nothing in flight and the worker idle: the next `send` takes that worker for its own
   * task, and the next completion re-queues task 2 again.
   */
  function StallState(): State {
    State(2, [], [QueuedTask(0, 2, Supplied(2))], 1, 1, true,
          [Pool("task-module", Options(1, None), [0], 1)], [Worker(0, Some(Supplied(1)), [], false)], [],
          [Delivery(0, ModuleSpec("task-module")), Delivery(0, Content(1))], [])
  }

  lemma BackgroundCompletionStalls()
    ensures Valid(StallState()) && Balanced(StallState()) && Saturated(StallState())
    ensures Valid(Complete(StallState(), 0, Reply(None, None, false, Some(10))))
    ensures var t := Tick(Complete(StallState(), 0, Reply(None, None, false, Some(10))));
      t.queue == [QueuedTask(0, 2, Supplied(2))] && t.activeTasks == 0 && t.pending == []
      && t.forked == [Worker(0, None, [], false)]
  {
    var s := StallState();
    assert PoolWellFormed(s, 0) && WorkerWellFormed(s, 0);
    PoolProperties.CompleteValid(s, 0, Reply(None, None, false, Some(10)));
    PoolProperties.SaturatedCompletionRequeuesAtTail(s, 0, Reply(None, None, false, Some(10)));
  }

  /**
   * Corrected: the finishing task gives its slot back before the queue is re-dispatched,
   * and only if the worker really held a task; the tick then leaves the count alone.
   */
  function CompleteReleasing(s: State, w: WorkerId, reply: Reply): State
    requires Valid(s) && w < |s.forked|
  {
    var released := s.(activeTasks := s.activeTasks - Busy(s.forked[w]));
    PoolProperties.RecordsValid(s, released);
    Complete(released, w, reply)
  }

  function TickReleased(s: State): State
    requires Valid(s) && |s.pending| > 0
  {
    Tick(s).(activeTasks := s.activeTasks)
  }

  /** The count the corrected steps keep: exactly the number of workers holding a task. */
  predicate Exact(s: State) {
    s.activeTasks == BusyCount(s.forked)
  }

  /**
   * From any state within the ceiling, a task finishing on the pool at the head of the
   * queue hands its worker straight to the head.
   */
  lemma ReleasingDispatchesHead(s: State, w: WorkerId, reply: Reply)
    requires Valid(s) && w < |s.forked| && !s.forked[w].killed && s.forked[w].callback.Some?
    requires |s.queue| > 0 && s.queue[0].pool == s.forked[w].pool
    requires s.activeTasks + (if s.isBackground then 1 else 0) <= Ceiling(s.numCPUs)
    ensures CompleteReleasing(s, w, reply).queue == s.queue[1..]
  {
    var released := s.(activeTasks := s.activeTasks - 1);
    PoolProperties.RecordsValid(s, released);
    PoolProperties.CompletionDispatchesHead(released, w, reply);
  }

  /** Every corrected step keeps the count exact, out-of-band replies included. */
  lemma ReleasingKeepsCountExact(s: State, w: WorkerId, reply: Reply)
    requires Valid(s) && Exact(s) && w < |s.forked|
    ensures Exact(CompleteReleasing(s, w, reply))
  {
    var released := s.(activeTasks := s.activeTasks - Busy(s.forked[w]));
    PoolProperties.RecordsValid(s, released);
    PoolProperties.CompleteAccounting(released, w, reply);
  }

  lemma TickReleasedKeepsCountExact(s: State)
    requires Valid(s) && Exact(s) && |s.pending| > 0
    ensures Exact(TickReleased(s))
  {
    var d := s.pending[0];
    if d.reply.fatal {
      PoolProperties.BusyCountUpdate(s.forked, d.worker, s.forked[d.worker].(killed := true));
    }
  }

  lemma SendKeepsCountExact(s: State, p: PoolId, message: Message, callback: Callback)
    requires Valid(s) && Exact(s) && p < |s.pools|
    ensures Exact(Send(s, p, message, callback))
  {
    PoolProperties.SendAccounting(s, p, message, callback);
  }

  /** The state right after the corrected completion of the stalling input. */
  function StallDispatched(): State {
    StallState().(activeTasks := 1, queue := [], forked := [Worker(0, Some(Supplied(2)), [], false)],
                  deliveries := StallState().deliveries + [Delivery(0, Content(2))],
                  pending := [Deferred(0, Some(Supplied(1)), Reply(None, None, false, Some(10)))])
  }

  lemma StallReleasingImmediate()
    ensures Valid(StallState())
    ensures CompleteReleasing(StallState(), 0, Reply(None, None, false, Some(10))) == StallDispatched()
  {
    var s := StallState();
    assert PoolWellFormed(s, 0) && WorkerWellFormed(s, 0);
    var r := s.(activeTasks := 0);
    var c := r.(forked := [Worker(0, None, [], false)], queue := []);
    assert FirstIdle([0], c.forked) == Some(0);
    assert Admit(c, 0) == Reuse(0);
  }

  /** On the stalling input, the corrected completion dispatches the queued task at once. */
  lemma BackgroundCompletionReleasing()
    ensures Valid(StallState())
    ensures CompleteReleasing(StallState(), 0, Reply(None, None, false, Some(10))) == StallDispatched()
    ensures Valid(StallDispatched())
    ensures var t := TickReleased(StallDispatched());
      t.queue == [] && t.activeTasks == 1 && t.pending == []
      && t.forked == [Worker(0, Some(Supplied(2)), [], false)]
      && t.outcomes == [Called(Supplied(1), None, Some(10))]
  {
    StallReleasingImmediate();
    var u := StallDispatched();
    assert PoolWellFormed(u, 0) && WorkerWellFormed(u, 0);
    assert ReplyFailure(Reply(None, None, false, Some(10))) == None;
  }

  /**
   * As written, by contrast, an out-of-band reply takes one off the count for a task that
   * was never counted: from an exact count on a pool with an idle worker, the count ends
   * one below the tasks in flight, so the next sends can push past the ceiling.
   */
  lemma OutOfBandReplyDrifts(s: State, w: WorkerId, reply: Reply)
    requires Valid(s) && Exact(s) && s.pending == [] && w < |s.forked| && s.forked[w].callback.None?
    ensures Valid(Complete(s, w, reply))
    ensures var t := Tick(Complete(s, w, reply));
      t.activeTasks == BusyCount(t.forked) - 1 && t.pending == []
  {
    PoolProperties.CompleteValid(s, w, reply);
    PoolProperties.CompleteBalanced(s, w, reply);
    var c := Complete(s, w, reply);
    assert |c.pending| == 1;
    var d := c.pending[0];
    if d.reply.fatal {
      PoolProperties.BusyCountUpdate(c.forked, d.worker, c.forked[d.worker].(killed := true));
    }
  }
}
