/**
 Timed invariants: deadlines kept by the watchdog, and who holds which lock. The lock part needs
 that the longest timeout, the dispatch delay, the watchdog's buffer and its period fit into the
 life of a lock.
 */
module TaskTiming {
  import opened TaskQueues
  import opened TaskEffects
  import opened TaskRuns
  import opened TaskInvariants

  /** timeout + delay + buffer 300 s + watchdog period 60 s <= lock TTL 3600 s. */
  predicate Fits(c: Config) {
    0.0 <= c.maxDelay && c.maxTimeout + c.maxDelay + 300.0 + 60.0 <= 3600.0
  }

  ghost predicate Deadlines(s: State) {
    && s.lastTick <= s.now <= s.lastTick + TICK
    && forall t | t in s.store.tasks :: RowInTime(s.store.tasks[t], s.lastTick)
  }

  predicate RowInTime(row: Task, lastTick: Time) {
    && (row.Pending() ==> lastTick <= row.createdAt + QUEUED_LIMIT)
    && (row.status == Status.Running ==>
          row.startedAt.Some? && lastTick < row.startedAt.value + (row.timeout + STALE_BUFFER))
  }

  /** The lock on a device is on record for `t`, up to at least `until`. */
  predicate Holds(locks: Locks, device: DeviceId, t: TaskId, until: Time) {
    device in locks && locks[device].owner == t && until <= locks[device].expires
  }

  /** A running task holds its device's lock for 3600 s less the dispatch delay. */
  ghost predicate RunnersHold(c: Config, s: State) {
    forall t | t in s.store.tasks && s.store.tasks[t].status == Status.Running ::
      s.store.tasks[t].startedAt.Some? &&
      Holds(s.store.locks, s.store.tasks[t].device, t, s.store.tasks[t].startedAt.value + LOCK_TTL - c.maxDelay)
  }

  ghost predicate FlightHolds(c: Config, s: State) {
    s.flight.Some? ==>
      var f := s.flight.value;
      && Holds(s.store.locks, f.device, f.task, f.poppedAt + LOCK_TTL)
      && f.poppedAt <= s.now <= f.poppedAt + c.maxDelay
  }

  /** A queued task within its hour is in its queue, in flight, or holds the lock of its device. */
  predicate Accounted(s: State, t: TaskId)
    requires t in s.store.tasks
  {
    var row := s.store.tasks[t];
    || Slot(row.org, row.device, t) in s.store.zset
    || (s.flight.Some? && s.flight.value.task == t)
    || Holds(s.store.locks, row.device, t, row.createdAt + LOCK_TTL)
  }

  ghost predicate NoneLost(s: State) {
    forall t | t in s.store.tasks && s.store.tasks[t].status == Status.Queued
               && s.now < s.store.tasks[t].createdAt + LOCK_TTL :: Accounted(s, t)
  }

  /** The timing argument: the watchdog gets to a running task before its lock expires. */
  lemma RunnerIsLive(c: Config, s: State, t: TaskId)
    requires Fits(c) && Inv(c, s) && Deadlines(s) && RunnersHold(c, s)
    requires t in s.store.tasks && s.store.tasks[t].status == Status.Running
    ensures var d := s.store.tasks[t].device;
            Live(s.store.locks, d, s.now) && s.store.locks[d].owner == t
  {
  }

  /** Rows change only in ways that keep them in time, unless the watchdog's clock moves. */
  lemma DeadlineRows(c: Config, s: State, a: Action, s': State)
    requires Deadlines(s) && Step(c, s, a, s') && !a.Tick? && !a.Create? && !a.Finish?
    ensures Deadlines(s')
  {
  }

  lemma DeadlineCreate(c: Config, s: State, a: Action, s': State)
    requires Inv(c, s) && Deadlines(s) && Step(c, s, a, s') && a.Create?
    ensures Deadlines(s')
  {
  }

  lemma DeadlineFinish(c: Config, s: State, a: Action, s': State)
    requires Inv(c, s) && Deadlines(s) && Step(c, s, a, s') && a.Finish?
    ensures Deadlines(s')
  {
  }

  lemma DeadlineTick(c: Config, s: State, s': State)
    requires Inv(c, s) && Deadlines(s) && Step(c, s, Tick, s')
    ensures Deadlines(s')
  {
  }

  lemma DeadlineStep(c: Config, s: State, a: Action, s': State)
    requires Inv(c, s) && Deadlines(s) && Step(c, s, a, s')
    ensures Deadlines(s')
  {
    hide Inv, Deadlines, Step;
    if a.Tick? {
      DeadlineTick(c, s, s');
    } else if a.Create? {
      DeadlineCreate(c, s, a, s');
    } else if a.Finish? {
      DeadlineFinish(c, s, a, s');
    } else {
      DeadlineRows(c, s, a, s');
    }
  }

  // ── locks ──

  ghost predicate Locked(c: Config, s: State) {
    RunnersHold(c, s) && FlightHolds(c, s) && NoneLost(s)
  }

  lemma LockedPop(c: Config, s: State, a: Action, s': State)
    requires Fits(c) && Inv(c, s) && Deadlines(s) && Locked(c, s) && Step(c, s, a, s') && a.Pop?
    ensures Locked(c, s')
  {
    forall t | t in s.store.tasks && s.store.tasks[t].status == Status.Running {
      RunnerIsLive(c, s, t);
    }
  }

  lemma LockedKept(c: Config, s: State, a: Action, s': State)
    requires Fits(c) && Inv(c, s) && Deadlines(s) && Locked(c, s) && Step(c, s, a, s')
    requires a.Finish? && (a.outcome.NoVersion? || a.outcome.Raised?)
    ensures Locked(c, s')
  {
  }

  lemma LockedDelivered(c: Config, s: State, a: Action, s': State)
    requires Fits(c) && Inv(c, s) && Deadlines(s) && Locked(c, s) && Step(c, s, a, s')
    requires a.Finish? && a.outcome.Delivered?
    ensures Locked(c, s')
  {
  }

  lemma LockedRequeued(c: Config, s: State, a: Action, s': State)
    requires Fits(c) && Inv(c, s) && Deadlines(s) && Locked(c, s) && Step(c, s, a, s')
    requires a.Finish? && a.outcome.NotDelivered?
    ensures Locked(c, s')
  {
  }

  /** Writing a row that is neither queued nor running, with the locks of other tasks untouched. */
  lemma LockedClosed(c: Config, s: State, t: TaskId, row: Task, zset: Zset, locks: Locks, batches: Batches)
    requires Locked(c, s) && t in s.store.tasks && row.status != Status.Running && row.status != Status.Queued
    requires s.flight.Some? ==> s.flight.value.device in locks
    requires forall d | d in s.store.locks && s.store.locks[d].owner != t :: d in locks
    requires forall d | d in locks :: d in s.store.locks && locks[d] == s.store.locks[d]
    requires forall slot | slot in s.store.zset && slot.task != t :: slot in zset
    ensures Locked(c, s.(store := Store(s.store.tasks[t := row], batches, zset, locks)))
  {
  }

  lemma LockedInsert(c: Config, s: State, r: Request)
    requires Locked(c, s) && r.task !in s.store.tasks && r.version.Some?
    ensures Locked(c, s.(store := Inserted(s.store, r, s.now)))
  {
  }

  lemma LockedCreate(c: Config, s: State, a: Action, s': State)
    requires Inv(c, s) && Locked(c, s) && Step(c, s, a, s') && a.Create?
    ensures Locked(c, s')
  {
    var r := a.request;
    if Created(s.store, r, s.now).1.Ok? {
      var s1 := s;
      if r.duplicate.Some? {
        var row := s.store.tasks[r.duplicate.value].With(Status.Timeout, s.now);
        LockedClosed(c, s, r.duplicate.value, row, s.store.zset, s.store.locks, s.store.batches);
        s1 := s.(store := s.store.(tasks := s.store.tasks[r.duplicate.value := row]));
      }
      LockedInsert(c, s1, r);
    }
  }

  lemma LockedResult(c: Config, s: State, a: Action, s': State)
    requires Inv(c, s) && Locked(c, s) && Step(c, s, a, s') && a.Result?
    ensures Locked(c, s')
  {
    if a.task in s.store.tasks {
      LockedClosed(c, s, a.task, s'.store.tasks[a.task], s'.store.zset, s'.store.locks, s'.store.batches) by {
        hide Inv;
      }
    }
  }

  lemma LockedCancel(c: Config, s: State, a: Action, s': State)
    requires Fits(c) && Inv(c, s) && Deadlines(s) && Locked(c, s) && Step(c, s, a, s') && (a.Cancel? || a.ForceStop?)
    ensures Locked(c, s')
  {
    if s' != s {
      if s.store.tasks[a.task].status == Status.Running {
        RunnerIsLive(c, s, a.task);
      }
      LockedClosed(c, s, a.task, s'.store.tasks[a.task], s'.store.zset, s'.store.locks, s'.store.batches) by {
        hide Inv, Deadlines;
      }
    }
  }

  lemma LockedCancelBatch(c: Config, s: State, a: Action, s': State)
    requires Fits(c) && Inv(c, s) && Deadlines(s) && Locked(c, s) && Step(c, s, a, s') && a.CancelBatch?
    ensures Locked(c, s')
  {
  }

  lemma LockedTick(c: Config, s: State, a: Action, s': State)
    requires Fits(c) && Inv(c, s) && Deadlines(s) && Locked(c, s) && Step(c, s, a, s') && a.Tick?
    ensures Locked(c, s')
  {
  }

  lemma LockedRest(c: Config, s: State, a: Action, s': State)
    requires Fits(c) && Inv(c, s) && Deadlines(s) && Locked(c, s) && Step(c, s, a, s')
    requires a.Advance? || a.Launch? || a.EndLaunch?
    ensures Locked(c, s')
  {
  }

  lemma LockedStep(c: Config, s: State, a: Action, s': State)
    requires Fits(c) && Inv(c, s) && Deadlines(s) && Locked(c, s) && Step(c, s, a, s')
    ensures Locked(c, s')
  {
    hide Inv, Deadlines, Locked, Step, Fits;
    match a {
      case Pop(_) => LockedPop(c, s, a, s');
      case Finish(Delivered, _) => LockedDelivered(c, s, a, s');
      case Finish(NotDelivered, _) => LockedRequeued(c, s, a, s');
      case Finish(_, _) => LockedKept(c, s, a, s');
      case Create(_) => LockedCreate(c, s, a, s');
      case Result(_, _) => LockedResult(c, s, a, s');
      case Cancel(_, _) => LockedCancel(c, s, a, s');
      case ForceStop(_, _) => LockedCancel(c, s, a, s');
      case CancelBatch(_, _) => LockedCancelBatch(c, s, a, s');
      case Tick => LockedTick(c, s, a, s');
      case _ => LockedRest(c, s, a, s');
    }
  }

  // ── lifetimes ──

  ghost predicate LocksBounded(s: State) {
    forall d | d in s.store.locks :: s.store.locks[d].expires <= s.now + 3600.0
  }

  lemma LocksBoundedStep(c: Config, s: State, a: Action, s': State)
    requires LocksBounded(s) && Step(c, s, a, s')
    ensures LocksBounded(s')
  {
  }
}
