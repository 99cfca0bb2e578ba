/** Invariants of the task protocol that need no bound on timeouts and delays. */
module TaskInvariants {
  import opened Prelude
  import opened TaskQueues
  import opened BatchTotals
  import opened TaskEffects
  import opened TaskRuns

  predicate RowOk(c: Config, row: Task, now: Time) {
    && row.device in c.orgOf && row.org == c.orgOf[row.device]
    && 0.0 <= row.timeout <= c.maxTimeout
    && row.status != Status.Assigned
    && row.createdAt <= row.updatedAt <= now
    && (row.status == Status.Running ==> row.startedAt.Some? && row.startedAt.value <= row.updatedAt)
  }

  ghost predicate Rows(c: Config, s: State) {
    forall t | t in s.store.tasks :: RowOk(c, s.store.tasks[t], s.now)
  }

  /**
   A task the dispatcher may still hand out. It was never sent; it may have been cancelled, timed out
   or expired while it waited or since it was popped.
   */
  predicate Waiting(s: State, t: TaskId) {
    && t in s.store.tasks && t !in s.sent
    && s.store.tasks[t].status in {Status.Queued, Status.Timeout, Status.Cancelled}
  }

  /** Queues are isolated: every slot belongs to the device and organisation of its task. */
  ghost predicate Slots(c: Config, s: State) {
    forall slot | slot in s.store.zset ::
      && Waiting(s, slot.task)
      && s.store.tasks[slot.task].device == slot.device
      && s.store.tasks[slot.task].org == slot.org
  }

  ghost predicate InFlight(c: Config, s: State) {
    s.flight.Some? ==>
      var f := s.flight.value;
      && Waiting(s, f.task) && f.device in c.orgOf
      && s.store.tasks[f.task].device == f.device
      && Slot(c.orgOf[f.device], f.device, f.task) !in s.store.zset
      && s.store.tasks[f.task].createdAt <= f.poppedAt <= s.now
  }

  ghost predicate Histories(s: State) {
    && s.sent <= s.store.tasks.Keys
    && (forall t | t in s.store.tasks && s.store.tasks[t].status == Status.Running :: t in s.sent)
    && (forall t | t in s.store.tasks && s.store.tasks[t].status == Status.Completed :: t in s.sent)
  }

  /** Expiries lie before the last start of their task, and tasks that still wait have none. */
  ghost predicate PastExpiries(s: State) {
    forall e | e in s.expired ::
      && e.task in s.store.tasks && e.at <= s.now
      && !s.store.tasks[e.task].Pending()
      && (s.store.tasks[e.task].status == Status.Running ==>
            s.store.tasks[e.task].startedAt.Some? && e.at <= s.store.tasks[e.task].startedAt.value)
  }

  /** Tasks of a batch belong to the organisation of the batch. */
  ghost predicate Batched(s: State) {
    forall t | t in s.store.tasks && s.store.tasks[t].batch.Some? ::
      var b := s.store.tasks[t].batch.value;
      b in s.store.batches && s.store.batches[b].org == s.store.tasks[t].org
  }

  ghost predicate Inv(c: Config, s: State) {
    Rows(c, s) && Slots(c, s) && InFlight(c, s) && Histories(s) && Batched(s)
  }

  // ── create ──

  lemma InvStaleDuplicate(c: Config, s: State, d: TaskId)
    requires Inv(c, s) && d in s.store.tasks && s.store.tasks[d].Open()
    ensures var tasks := s.store.tasks[d := s.store.tasks[d].With(Status.Timeout, s.now)];
            Inv(c, s.(store := s.store.(tasks := tasks)))
  {
  }

  lemma InvInsert(c: Config, s: State, r: Request)
    requires Inv(c, s) && r.task !in s.store.tasks && r.version.Some?
    requires r.device in c.orgOf && c.orgOf[r.device] == r.org && 0.0 <= r.timeout <= c.maxTimeout
    requires r.batch.Some? ==>
               r.batch.value in s.store.batches && s.store.batches[r.batch.value].org == r.org
    ensures Inv(c, s.(store := Inserted(s.store, r, s.now)))
  {
    var s' := s.(store := Inserted(s.store, r, s.now));
    assert forall t | t in s.store.tasks :: s'.store.tasks[t] == s.store.tasks[t];
    assert Waiting(s', r.task);
    assert Rows(c, s') && Histories(s');
    assert InFlight(c, s');
    assert forall slot | slot in s'.store.zset :: slot in s.store.zset || slot == Slot(r.org, r.device, r.task);
  }

  lemma InvCreate(c: Config, s: State, a: Action, s': State)
    requires Inv(c, s) && a.Create? && Step(c, s, a, s')
    ensures Inv(c, s')
  {
    var r := a.request;
    if Created(s.store, r, s.now).1.Ok? {
      if r.duplicate.Some? {
        var d := r.duplicate.value;
        var tasks := s.store.tasks[d := s.store.tasks[d].With(Status.Timeout, s.now)];
        InvStaleDuplicate(c, s, d);
        InvInsert(c, s.(store := s.store.(tasks := tasks)), r);
      } else {
        InvInsert(c, s, r);
      }
    }
  }

  // ── dispatch ──

  lemma InvPop(c: Config, s: State, a: Action, s': State)
    requires Inv(c, s) && a.Pop? && Step(c, s, a, s')
    ensures Inv(c, s')
  {
  }

  lemma InvRowWritten(c: Config, s: State, row: Task, sent: set<TaskId>)
    requires Inv(c, s) && s.flight.Some? && RowOk(c, row, s.now)
    requires var f := s.flight.value;
             && row.device == s.store.tasks[f.task].device && row.org == s.store.tasks[f.task].org
             && row.batch == s.store.tasks[f.task].batch
             && sent == s.sent + (if row.status == Status.Running then {f.task} else {})
             && (row.status == Status.Running || row.status == Status.Failed)
    ensures Inv(c, s.(store := s.store.(tasks := s.store.tasks[s.flight.value.task := row]),
                      flight := None, sent := sent))
  {
    var f := s.flight.value;
    assert forall slot | slot in s.store.zset :: slot.task != f.task;
  }

  lemma InvRequeued(c: Config, s: State, locks: Locks, score: real)
    requires Inv(c, s) && s.flight.Some?
    ensures var f := s.flight.value;
            Inv(c, s.(store := s.store.(locks := locks,
                                        zset := s.store.zset[Slot(c.orgOf[f.device], f.device, f.task) := score]),
                      flight := None))
  {
  }

  lemma InvFinish(c: Config, s: State, a: Action, s': State)
    requires Inv(c, s) && a.Finish? && Step(c, s, a, s')
    ensures Inv(c, s')
  {
    var f := s.flight.value;
    var row := s.store.tasks[f.task];
    match a.outcome {
      case NoVersion => InvRowWritten(c, s, row.With(Status.Failed, s.now), s.sent);
      case Delivered => InvRowWritten(c, s, row.Start(s.now), s.sent + {f.task});
      case NotDelivered => InvRequeued(c, s, s.store.locks - {f.device}, Score(row.priority, s.now));
      case Raised =>
        assert forall slot | slot in s.store.zset :: slot.task != f.task;
    }
  }

  // ── the other steps ──

  /** An agent answers a task that is not closed yet: the row becomes COMPLETED or FAILED. */
  lemma InvAnswered(c: Config, s: State, task: TaskId, success: bool, locks: Locks, batches: Batches)
    requires Inv(c, s) && task in s.store.tasks && task in s.sent
    requires forall b | b in s.store.batches :: b in batches && batches[b].org == s.store.batches[b].org
    ensures var row := s.store.tasks[task].With(if success then Status.Completed else Status.Failed, s.now);
            Inv(c, s.(store := s.store.(tasks := s.store.tasks[task := row], locks := locks, batches := batches)))
  {
  }

  lemma InvTouched(c: Config, s: State, task: TaskId, locks: Locks)
    requires Inv(c, s) && task in s.store.tasks && s.store.tasks[task].Final()
    ensures var row := s.store.tasks[task].With(s.store.tasks[task].status, s.now);
            Inv(c, s.(store := s.store.(tasks := s.store.tasks[task := row], locks := locks)))
  {
  }

  lemma InvResult(c: Config, s: State, a: Action, s': State)
    requires Inv(c, s) && a.Result? && Step(c, s, a, s')
    ensures Inv(c, s')
  {
    if a.task in s.store.tasks {
      var row := s.store.tasks[a.task];
      var locks := Released(s.store.locks, row.device, a.task, s.now);
      if row.Final() {
        InvTouched(c, s, a.task, locks);
      } else {
        InvAnswered(c, s, a.task, a.success, locks, Counted(s.store.batches, row.batch, a.success)) by {
          hide Inv;
        }
      }
    }
  }

  function AfterUnqueue(s: State, task: TaskId): State
    requires task in s.store.tasks
  {
    s.(store := Unqueued(s.store, task, s.store.tasks[task].org, s.now))
  }

  lemma UnqueuedSlots(c: Config, s: State, task: TaskId)
    requires Inv(c, s) && task in s.store.tasks && s.store.tasks[task].Pending()
    ensures Slots(c, AfterUnqueue(s, task)) && InFlight(c, AfterUnqueue(s, task))
  {
    hide Rows, Histories, Batched;
    var row := s.store.tasks[task];
    assert forall slot | slot in s.store.zset && slot.task == task :: slot == Slot(row.org, row.device, task);
  }

  lemma InvUnqueued(c: Config, s: State, task: TaskId)
    requires Inv(c, s) && task in s.store.tasks && s.store.tasks[task].Pending()
    ensures Inv(c, AfterUnqueue(s, task))
  {
    UnqueuedSlots(c, s, task);
    hide Slots, InFlight;
  }

  lemma InvStopped(c: Config, s: State, task: TaskId, locks: Locks)
    requires Inv(c, s) && task in s.store.tasks && s.store.tasks[task].status == Status.Running
    ensures var row := s.store.tasks[task].With(Status.Cancelled, s.now);
            Inv(c, s.(store := s.store.(tasks := s.store.tasks[task := row], locks := locks)))
  {
  }

  lemma InvCancel(c: Config, s: State, a: Action, s': State)
    requires Inv(c, s) && (a.Cancel? || a.ForceStop?) && Step(c, s, a, s')
    ensures Inv(c, s')
  {
    if a.task in s.store.tasks && s.store.tasks[a.task].org == a.org {
      if s.store.tasks[a.task].Pending() {
        InvUnqueued(c, s, a.task);
      } else if a.ForceStop? && s.store.tasks[a.task].Open() {
        InvStopped(c, s, a.task, s.store.locks - {s.store.tasks[a.task].device});
      }
    }
  }

  function AfterCancel(s: State, batch: BatchId): State
    requires batch in s.store.batches
  {
    var gone, b := PendingOf(s.store.tasks, batch), s.store.batches[batch];
    s.(store := Store(Marked(s.store.tasks, gone, Status.Cancelled, s.now),
                      s.store.batches[batch := b.(status := BatchStatus.Cancelled)],
                      s.store.zset - SlotsOf(s.store.tasks, gone, b.org),
                      s.store.locks))
  }

  lemma BatchGoneSlots(c: Config, s: State, batch: BatchId)
    requires Inv(c, s) && batch in s.store.batches
    ensures Slots(c, AfterCancel(s, batch)) && InFlight(c, AfterCancel(s, batch))
  {
    hide Rows, Histories;
    var gone, org := PendingOf(s.store.tasks, batch), s.store.batches[batch].org;
    forall slot | slot in s.store.zset && slot.task in gone ensures slot in SlotsOf(s.store.tasks, gone, org) {
      assert slot == Slot(org, s.store.tasks[slot.task].device, slot.task);
    }
  }

  lemma InvBatchGone(c: Config, s: State, batch: BatchId)
    requires Inv(c, s) && batch in s.store.batches
    ensures Inv(c, AfterCancel(s, batch))
  {
    BatchGoneSlots(c, s, batch);
    hide Slots, InFlight, SlotsOf;
  }

  lemma InvCancelBatch(c: Config, s: State, a: Action, s': State)
    requires Inv(c, s) && a.CancelBatch? && Step(c, s, a, s')
    ensures Inv(c, s')
  {
    if CancelledBatch(s.store, a.batch, a.org, s.now).1.Ok? {
      InvBatchGone(c, s, a.batch);
    }
  }

  lemma TickRows(c: Config, s: State, s': State)
    requires Inv(c, s) && Step(c, s, Tick, s')
    ensures Rows(c, s') && Batched(s')
  {
    assert s'.store == Swept(s.store, s.now) && s'.now == s.now;
    hide Next, Step, Slots, InFlight, Histories;
    assert forall t | t in s'.store.tasks :: s'.store.tasks[t].batch == s.store.tasks[t].batch;
    assert forall b | b in s.store.batches ::
        b in s'.store.batches && s'.store.batches[b].org == s.store.batches[b].org;
  }

  lemma TickSlots(c: Config, s: State, s': State)
    requires Inv(c, s) && Step(c, s, Tick, s')
    ensures Slots(c, s') && InFlight(c, s')
  {
    forall slot | slot in s'.store.zset ensures slot.task !in Stale(s.store.tasks, s.now) {
      assert slot in s.store.zset;
      assert slot == Slot(s.store.tasks[slot.task].org, s.store.tasks[slot.task].device, slot.task);
    }
  }

  lemma InvTick(c: Config, s: State, a: Action, s': State)
    requires Inv(c, s) && a.Tick? && Step(c, s, a, s')
    ensures Inv(c, s')
  {
    TickRows(c, s, s');
    TickSlots(c, s, s');
    assert Histories(s');
  }

  lemma InvRest(c: Config, s: State, a: Action, s': State)
    requires Inv(c, s) && (a.Advance? || a.Launch? || a.EndLaunch?) && Step(c, s, a, s')
    ensures Inv(c, s')
  {
  }

  lemma InvStep(c: Config, s: State, a: Action, s': State)
    requires Inv(c, s) && Step(c, s, a, s')
    ensures Inv(c, s')
  {
    match a {
      case Create(_) => InvCreate(c, s, a, s');
      case Pop(_) => InvPop(c, s, a, s');
      case Finish(_, _) => InvFinish(c, s, a, s');
      case Result(_, _) => InvResult(c, s, a, s');
      case Cancel(_, _) => InvCancel(c, s, a, s');
      case ForceStop(_, _) => InvCancel(c, s, a, s');
      case CancelBatch(_, _) => InvCancelBatch(c, s, a, s');
      case Tick => InvTick(c, s, a, s');
      case _ => InvRest(c, s, a, s');
    }
  }

  /** Every state of every run satisfies the invariant. */
  lemma {:induction false} InvRun(c: Config, states: seq<State>, actions: seq<Action>, i: nat)
    requires Run(c, states, actions) && i < |states|
    ensures Inv(c, states[i])
  {
    if i == 0 {
    } else {
      InvRun(c, states, actions, i - 1);
      InvStep(c, states[i - 1], actions[i - 1], states[i]);
    }
  }

  // ── past expiries ──

  lemma PastInit(s: State)
    requires Init(s)
    ensures PastExpiries(s)
  {
  }

  lemma PastPop(c: Config, s: State, a: Action, s': State)
    requires PastExpiries(s) && Step(c, s, a, s') && a.Pop?
    ensures PastExpiries(s')
  {
  }

  lemma PastFinish(c: Config, s: State, a: Action, s': State)
    requires Inv(c, s) && PastExpiries(s) && Step(c, s, a, s') && a.Finish?
    ensures PastExpiries(s')
  {
    hide Rows, Slots, Histories, Batched;
  }

  lemma PastCreate(c: Config, s: State, a: Action, s': State)
    requires PastExpiries(s) && Step(c, s, a, s') && a.Create?
    ensures PastExpiries(s')
  {
  }

  lemma PastTick(c: Config, s: State, s': State)
    requires PastExpiries(s) && Step(c, s, Tick, s')
    ensures PastExpiries(s')
  {
  }

  lemma PastOther(c: Config, s: State, a: Action, s': State)
    requires PastExpiries(s) && Step(c, s, a, s') && !a.Create? && !a.Pop? && !a.Finish? && !a.Tick?
    ensures PastExpiries(s')
  {
  }

  lemma PastStep(c: Config, s: State, a: Action, s': State)
    requires Inv(c, s) && PastExpiries(s) && Step(c, s, a, s')
    ensures PastExpiries(s')
  {
    hide Inv, PastExpiries, Step;
    if a.Pop? {
      PastPop(c, s, a, s');
    } else if a.Finish? {
      PastFinish(c, s, a, s');
    } else if a.Create? {
      PastCreate(c, s, a, s');
    } else if a.Tick? {
      PastTick(c, s, s');
    } else {
      PastOther(c, s, a, s');
    }
  }

  lemma {:induction false} PastRun(c: Config, states: seq<State>, actions: seq<Action>, i: nat)
    requires Run(c, states, actions) && i < |states|
    ensures PastExpiries(states[i])
  {
    hide *;
    if i == 0 {
      StartsInit(c, states, actions);
      PastInit(states[0]);
    } else {
      StepAt(c, states, actions, i);
      PastRun(c, states, actions, i - 1);
      InvRun(c, states, actions, i - 1);
      PastStep(c, states[i - 1], actions[i - 1], states[i]);
    }
  }
}
