/**
 Where the guarantees end: the bound of mutual exclusion is exact, and concrete runs show what
 each assumption excludes.
 */
module TaskLimits {
  import opened Prelude
  import opened TaskQueues
  import opened BatchTotals
  import opened TaskEffects
  import opened TaskRuns
  import opened TaskAccounting
  import opened TaskTiming
  import opened TaskTheorems

  lemma NothingSwept(st: Store, now: Time)
    requires Stale(st.tasks, now) == {}
    ensures Swept(st, now) == st
  {
    assert Marked(st.tasks, {}, Status.Timeout, now) == st.tasks;
    assert TalliedBatches(st.tasks, st.batches, {}) == st.batches;
    assert StalePendings(st.tasks, now) == {} && StaleRunnings(st.tasks, now) == {};
    assert OwnSlots(st.tasks, {}) == {} && DevicesOf(st.tasks, {}) == {};
  }

  /** No task becomes stale up to and including time `until`. */
  ghost predicate QuietUntil(tasks: Tasks, until: Time) {
    forall t | t in tasks :: !StaleRunning(tasks[t], until) && !StalePending(tasks[t], until)
  }

  predicate At(s: State, now: Time, s': State) {
    s' == s.(now := now, lastTick := now)
  }

  lemma TickQuietly(c: Config, s: State, now: Time, s': State)
    requires Reachable(c, s) && QuietUntil(s.store.tasks, now)
    requires s.now <= now <= s.lastTick + TICK
    requires s.flight.Some? ==> now <= s.flight.value.poppedAt + c.maxDelay
    requires At(s, now, s')
    ensures Reachable(c, s')
  {
    var s1 := s.(now := now);
    if s.now < now {
      StepReachable(c, s, Advance(now - s.now), s1);
    }
    assert Stale(s1.store.tasks, now) == {};
    NothingSwept(s1.store, now);
    StepReachable(c, s1, Tick, s');
  }

  /** Time may pass to `until`, with a watchdog cycle at least every minute that expires nothing. */
  lemma {:induction false} Wait(c: Config, s: State, until: Time, s': State, cycles: nat)
    requires Reachable(c, s) && QuietUntil(s.store.tasks, until)
    requires s.lastTick <= s.now <= s.lastTick + TICK
    requires s.now <= until <= s.lastTick + cycles as real * TICK
    requires s.flight.Some? ==> until <= s.flight.value.poppedAt + c.maxDelay
    requires At(s, until, s')
    ensures Reachable(c, s')
    decreases cycles
  {
    hide Reachable;
    if until <= s.lastTick + TICK {
      TickQuietly(c, s, until, s');
    } else {
      var next := s.lastTick + TICK;
      var mid := s.(now := next, lastTick := next);
      assert QuietUntil(s.store.tasks, next);
      TickQuietly(c, s, next, mid);
      Wait(c, mid, until, s', cycles - 1);
    }
  }

  // ── mutual exclusion is lost as soon as the bounds do not fit ──

  function Plain(task: TaskId, version: nat, d: DeviceId, org: OrgId, timeout: Time): Request {
    Request(task, d, org, 5, timeout, None, true, Some(version), true, None, None)
  }

  function Waiting0(c: Config, d: DeviceId): Task
    requires d in c.orgOf
  {
    NewTask(Plain(0, 0, d, c.orgOf[d], c.maxTimeout), 0.0)
  }

  /** Task 0 popped at time 0 and in flight ever since. */
  function Flying(c: Config, d: DeviceId, now: Time): State
    requires d in c.orgOf
  {
    State(Store(map[0 := Waiting0(c, d)], map[], map[], map[d := Lock(0, LOCK_TTL)]),
          now, now, Some(Flight(0, d, 0.0)), {}, {}, map[])
  }

  /** Task 0 delivered at `start`. */
  function RunningSince(c: Config, d: DeviceId, start: Time, now: Time, lastTick: Time): State
    requires d in c.orgOf
  {
    State(Store(map[0 := Waiting0(c, d).Start(start)], map[], map[], map[d := Lock(0, LOCK_TTL)]),
          now, lastTick, None, {0}, {}, map[])
  }

  lemma ReachFlying(c: Config, d: DeviceId)
    requires d in c.orgOf && 0.0 <= c.maxTimeout
    ensures Reachable(c, Flying(c, d, 0.0))
  {
    var org := c.orgOf[d];
    var s0 := State(Store(map[], map[], map[], map[]), 0.0, 0.0, None, {}, {}, map[]);
    InitReachable(c, s0);
    var r := Plain(0, 0, d, org, c.maxTimeout);
    var zset := map[Slot(org, d, 0) := Score(5, 0.0)];
    var s1 := s0.(store := s0.store.(tasks := map[0 := Waiting0(c, d)], zset := zset));
    hide Reachable;
    assert Step(c, s0, Create(r), s1);
    StepReachable(c, s0, Create(r), s1);
    assert IsFirst(zset, org, d, 0);
    FirstIsUnique(zset, org, d, 0);
    assert zset - {Slot(org, d, 0)} == map[];
    assert Step(c, s1, Pop(d), Flying(c, d, 0.0));
    StepReachable(c, s1, Pop(d), Flying(c, d, 0.0));
  }

  /** Task 0 runs since `start` while its lock is about to expire. */
  lemma ReachRunning(c: Config, d: DeviceId, start: Time)
    requires d in c.orgOf && 0.0 <= c.maxTimeout
    requires 0.0 <= start <= LOCK_TTL && start <= c.maxDelay
    requires start + c.maxTimeout + STALE_BUFFER + TICK > LOCK_TTL
    ensures exists lastTick :: Reachable(c, RunningSince(c, d, start, LOCK_TTL, lastTick))
  {
    hide Reachable;
    ReachFlying(c, d);
    Wait(c, Flying(c, d, 0.0), start, Flying(c, d, start), 60);
    var s := RunningSince(c, d, start, start, start);
    assert Step(c, Flying(c, d, start), Finish(Delivered, true), s);
    StepReachable(c, Flying(c, d, start), Finish(Delivered, true), s);
    var tick := if start <= LOCK_TTL - TICK then LOCK_TTL - TICK else start;
    var s1 := RunningSince(c, d, start, tick, tick);
    Wait(c, s, tick, s1, 60);
    var s2 := RunningSince(c, d, start, LOCK_TTL, tick);
    if tick < LOCK_TTL {
      assert Step(c, s1, Advance(LOCK_TTL - tick), s2);
      StepReachable(c, s1, Advance(LOCK_TTL - tick), s2);
    }
    assert Reachable(c, RunningSince(c, d, start, LOCK_TTL, tick));
  }

  /** Task 1 in flight next to the running task 0, whose lock has expired. */
  function SecondFlying(c: Config, d: DeviceId, start: Time, lastTick: Time): State
    requires d in c.orgOf
  {
    var s := RunningSince(c, d, start, LOCK_TTL, lastTick);
    var second := NewTask(Plain(1, 1, d, c.orgOf[d], c.maxTimeout), LOCK_TTL);
    s.(store := Store(s.store.tasks[1 := second], map[], map[], map[d := Lock(1, LOCK_TTL + LOCK_TTL)]),
       flight := Some(Flight(1, d, LOCK_TTL)))
  }

  lemma ReachSecondFlying(c: Config, d: DeviceId, start: Time, lastTick: Time)
    requires d in c.orgOf && 0.0 <= c.maxTimeout
    requires Reachable(c, RunningSince(c, d, start, LOCK_TTL, lastTick))
    ensures Reachable(c, SecondFlying(c, d, start, lastTick))
  {
    hide Reachable;
    var org := c.orgOf[d];
    var s := RunningSince(c, d, start, LOCK_TTL, lastTick);
    var r := Plain(1, 1, d, org, c.maxTimeout);
    var zset := map[Slot(org, d, 1) := Score(5, LOCK_TTL)];
    var s1 := s.(store := s.store.(tasks := s.store.tasks[1 := NewTask(r, LOCK_TTL)], zset := zset));
    assert Step(c, s, Create(r), s1);
    StepReachable(c, s, Create(r), s1);
    FirstIsUnique(zset, org, d, 1);
    assert zset - {Slot(org, d, 1)} == map[];
    assert s.store.locks[d := Lock(1, LOCK_TTL + LOCK_TTL)] == map[d := Lock(1, LOCK_TTL + LOCK_TTL)];
    assert Step(c, s1, Pop(d), SecondFlying(c, d, start, lastTick));
    StepReachable(c, s1, Pop(d), SecondFlying(c, d, start, lastTick));
  }

  /** Delivered, it is the second running task on the device. */
  lemma SecondRunner(c: Config, d: DeviceId, start: Time, lastTick: Time)
    requires d in c.orgOf && Reachable(c, SecondFlying(c, d, start, lastTick))
    ensures exists s :: Reachable(c, s) && !Exclusive(s)
  {
    hide Reachable;
    var s := SecondFlying(c, d, start, lastTick);
    var s1 := s.(store := s.store.(tasks := s.store.tasks[1 := s.store.tasks[1].Start(LOCK_TTL)]),
                 flight := None, sent := {0} + {1});
    assert Step(c, s, Finish(Delivered, true), s1);
    StepReachable(c, s, Finish(Delivered, true), s1);
    assert s1.store.tasks[0].status == s1.store.tasks[1].status == Status.Running;
    assert Reachable(c, s1) && !Exclusive(s1);
  }

  /** If its dispatch raises, a force stop of task 0 takes away the lock it counts on. */
  lemma LostBehindRunner(c: Config, d: DeviceId, start: Time, lastTick: Time)
    requires d in c.orgOf && Reachable(c, SecondFlying(c, d, start, lastTick))
    ensures exists s :: Reachable(c, s) && !NoneOutOfReach(s)
  {
    hide Reachable;
    var s := SecondFlying(c, d, start, lastTick);
    var s1 := s.(flight := None);
    assert Step(c, s, Finish(Raised, false), s1);
    StepReachable(c, s, Finish(Raised, false), s1);
    var stopped := s1.store.tasks[0].With(Status.Cancelled, LOCK_TTL);
    var s2 := s1.(store := s1.store.(tasks := s1.store.tasks[0 := stopped], locks := s1.store.locks - {d}));
    assert Step(c, s1, ForceStop(0, c.orgOf[d]), s2);
    StepReachable(c, s1, ForceStop(0, c.orgOf[d]), s2);
    assert s2.store.tasks[1].status == Status.Queued && !WithinReach(s2, 1);
    assert Reachable(c, s2) && !NoneOutOfReach(s2);
  }

  /** Without the bound, some task is in flight next to a running one. */
  lemma UnfitSecondFlying(c: Config) returns (d: DeviceId, start: Time, lastTick: Time)
    requires c.orgOf.Keys != {} && 0.0 <= c.maxTimeout && 0.0 <= c.maxDelay && !Fits(c)
    ensures d in c.orgOf && Reachable(c, SecondFlying(c, d, start, lastTick))
  {
    hide Reachable;
    d :| d in c.orgOf.Keys;
    start := if c.maxDelay <= LOCK_TTL then c.maxDelay else LOCK_TTL;
    ReachRunning(c, d, start);
    lastTick :| Reachable(c, RunningSince(c, d, start, LOCK_TTL, lastTick));
    ReachSecondFlying(c, d, start, lastTick);
  }

  /**
   The exact bound. On a fleet with at least one device, no reachable state has two running tasks
   on one device if and only if timeout + delay + 300 s + 60 s fits into the 3600 s of the lock.
   */
  lemma MutualExclusionExactly(c: Config)
    requires c.orgOf.Keys != {} && 0.0 <= c.maxTimeout && 0.0 <= c.maxDelay
    ensures (forall s | Reachable(c, s) :: Exclusive(s)) <==> Fits(c)
  {
    if Fits(c) {
      forall s | Reachable(c, s) ensures Exclusive(s) {
        MutualExclusion(c, s);
      }
    } else {
      hide Reachable, Exclusive;
      var d, start, lastTick := UnfitSecondFlying(c);
      SecondRunner(c, d, start, lastTick);
    }
  }

  /** And under the same bound, and only then, no queued task is ever lost. */
  lemma NoQueuedTaskIsLostExactly(c: Config)
    requires c.orgOf.Keys != {} && 0.0 <= c.maxTimeout && 0.0 <= c.maxDelay
    ensures (forall s | Reachable(c, s) :: NoneOutOfReach(s)) <==> Fits(c)
  {
    if Fits(c) {
      forall s | Reachable(c, s) ensures NoneOutOfReach(s) {
        NoQueuedTaskIsLost(c, s);
      }
    } else {
      hide Reachable, NoneOutOfReach;
      var d, start, lastTick := UnfitSecondFlying(c);
      LostBehindRunner(c, d, start, lastTick);
    }
  }

  // ── the 24-hour test of create_task ──

  /** A task with a longer timeout can run for more than a day. */
  lemma ReachAged(c: Config, d: DeviceId)
    requires d in c.orgOf && c.maxTimeout > DAY - 360.0
    ensures exists s :: Reachable(c, s) && AgedOut(s, 0)
  {
    hide Reachable;
    ReachFlying(c, d);
    var s := RunningSince(c, d, 0.0, 0.0, 0.0);
    var deliver := Finish(Delivered, true);
    assert Step(c, Flying(c, d, 0.0), deliver, s);
    StepReachable(c, Flying(c, d, 0.0), deliver, s);
    var limit := c.maxTimeout + STALE_BUFFER;
    var tick := if limit > DAY then DAY else (DAY - TICK + limit) / 2.0;
    var s1 := RunningSince(c, d, 0.0, tick, tick);
    Wait(c, s, tick, s1, 1440);
    var s2 := RunningSince(c, d, 0.0, tick + TICK, tick);
    assert Step(c, s1, Advance(TICK), s2);
    StepReachable(c, s1, Advance(TICK), s2);
    assert Reachable(c, s2) && AgedOut(s2, 0);
  }

  /**
   The 24-hour staleness test of `create_task` decides something exactly when some timeout is longer
   than 24 hours less the 360 s of the watchdog.
   */
  lemma DayOldTestFiresExactly(c: Config)
    requires c.orgOf.Keys != {}
    ensures (exists s, t :: Reachable(c, s) && AgedOut(s, t)) <==> c.maxTimeout > DAY - 360.0
  {
    hide Reachable, AgedOut;
    if c.maxTimeout > DAY - 360.0 {
      var d :| d in c.orgOf.Keys;
      ReachAged(c, d);
    } else {
      forall s, t | Reachable(c, s) ensures !AgedOut(s, t) {
        WatchdogBeatsDay(c, s, t);
      }
    }
  }

  // ── what the other assumptions exclude ──

  /**
   A cancel between pop and delivery is accepted, and the delivery then turns CANCELLED into RUNNING.
   */
  lemma CancelInFlightIsLost(c: Config, d: DeviceId) returns (s1: State, s2: State)
    requires d in c.orgOf && 0.0 <= c.maxTimeout
    ensures Reachable(c, s1) && 0 in s1.store.tasks && s1.store.tasks[0].status == Status.Cancelled
    ensures Leads(c, s1, s2) && 0 in s2.store.tasks && s2.store.tasks[0].status == Status.Running
  {
    ReachFlying(c, d);
    hide Reachable;
    var s := Flying(c, d, 0.0);
    var cancel, deliver := Cancel(0, c.orgOf[d]), Finish(Delivered, true);
    s1 := Next(c, s, cancel);
    StepReachable(c, s, cancel, s1);
    s2 := Next(c, s1, deliver);
    LeadsSelf(c, s1);
    LeadsOn(c, s1, s1, deliver, s2);
  }

  /**
   What the machine leaves out by making a delivery one step: if a result came in between the sending
   of the command and the commit of RUNNING, the commit would overwrite it, with the lock gone.
   */
  lemma FastResultWouldBeLost(st: Store, t: TaskId, org: OrgId, success: bool, now: Time, later: Time)
    requires t in st.tasks && st.tasks[t].status == Status.Queued
    requires Live(st.locks, st.tasks[t].device, now) && st.locks[st.tasks[t].device].owner == t
    ensures var d := st.tasks[t].device;
            var answered := Answered(st, t, d, success, now);
            var committed := Dispatched(answered, t, org, d, Delivered, later);
            && answered.tasks[t].status == (if success then Status.Completed else Status.Failed)
            && committed.tasks[t].status == Status.Running && d !in committed.locks
  {
  }

  /** Two tasks of one script version for one device; the first timed out as a stale duplicate. */
  function Superseded(c: Config, d: DeviceId): State
    requires d in c.orgOf
  {
    var org := c.orgOf[d];
    var second := NewTask(Plain(1, 0, d, org, c.maxTimeout), 0.0);
    State(Store(map[0 := Waiting0(c, d).With(Status.Timeout, 0.0), 1 := second], map[],
                map[Slot(org, d, 0) := Score(5, 0.0), Slot(org, d, 1) := Score(5, 0.0)], map[]),
          0.0, 0.0, None, {}, {}, map[])
  }

  lemma ReachSuperseded(c: Config, d: DeviceId)
    requires d in c.orgOf && 0.0 <= c.maxTimeout
    ensures Reachable(c, Superseded(c, d))
  {
    var org := c.orgOf[d];
    var s0 := State(Store(map[], map[], map[], map[]), 0.0, 0.0, None, {}, {}, map[]);
    InitReachable(c, s0);
    hide Reachable;
    var s1 := s0.(store := s0.store.(tasks := map[0 := Waiting0(c, d)], zset := map[Slot(org, d, 0) := Score(5, 0.0)]));
    assert Step(c, s0, Create(Plain(0, 0, d, org, c.maxTimeout)), s1);
    StepReachable(c, s0, Create(Plain(0, 0, d, org, c.maxTimeout)), s1);
    var again := Plain(1, 0, d, org, c.maxTimeout).(online := Some(false), duplicate := Some(0));
    assert Superseded(c, d).store.tasks
        == s1.store.tasks[0 := Waiting0(c, d).With(Status.Timeout, 0.0)][1 := NewTask(again, 0.0)];
    assert Superseded(c, d).store.zset == s1.store.zset[Slot(org, d, 1) := Score(5, 0.0)];
    assert Step(c, s1, Create(again), Superseded(c, d));
    StepReachable(c, s1, Create(again), Superseded(c, d));
  }

  /**
   TIMEOUT is not final: a task timed out as a stale duplicate stays in its queue, and the
   dispatcher hands it out before its replacement.
   */
  lemma StaleDuplicateRunsAnyway(c: Config, d: DeviceId)
    requires d in c.orgOf && 0.0 <= c.maxTimeout
    ensures var s := Superseded(c, d);
            && Reachable(c, s) && s.store.tasks[0].status == Status.Timeout
            && exists s' :: Reachable(c, s') && 0 in s'.store.tasks && s'.store.tasks[0].status == Status.Running
                            && 1 in s'.store.tasks && s'.store.tasks[1].status == Status.Queued
  {
    var org := c.orgOf[d];
    var s := Superseded(c, d);
    ReachSuperseded(c, d);
    hide Reachable;
    FirstIsUnique(s.store.zset, org, d, 0);
    var s1 := s.(store := s.store.(zset := s.store.zset - {Slot(org, d, 0)}, locks := map[d := Lock(0, LOCK_TTL)]),
                 flight := Some(Flight(0, d, 0.0)));
    assert Step(c, s, Pop(d), s1);
    StepReachable(c, s, Pop(d), s1);
    var s2 := s1.(store := s1.store.(tasks := s1.store.tasks[0 := s1.store.tasks[0].Start(0.0)]),
                  flight := None, sent := {0});
    assert Step(c, s1, Finish(Delivered, true), s2);
    StepReachable(c, s1, Finish(Delivered, true), s2);
  }

  // ── tasks that are counted twice ──

  function InBatch0(c: Config, d: DeviceId): Request
    requires d in c.orgOf
  {
    Plain(0, 0, d, c.orgOf[d], 0.0).(batch := Some(0))
  }

  /** The only task of batch 0, with timeout 0, queued since time 0. */
  function BatchQueued(c: Config, d: DeviceId, now: Time): State
    requires d in c.orgOf
  {
    State(Store(map[0 := NewTask(InBatch0(c, d), 0.0)],
                map[0 := Batch(c.orgOf[d], BatchStatus.Running, 1, 0, 0)],
                map[Slot(c.orgOf[d], d, 0) := Score(5, 0.0)], map[]),
          now, now, None, {}, {}, map[0 := []])
  }

  /** The same task popped at time `at`. */
  function BatchFlying(c: Config, d: DeviceId, at: Time): State
    requires d in c.orgOf
  {
    var s := BatchQueued(c, d, at);
    s.(store := s.store.(zset := map[], locks := map[d := Lock(0, at + LOCK_TTL)]), flight := Some(Flight(0, d, at)))
  }

  lemma ReachBatchQueued(c: Config, d: DeviceId)
    requires d in c.orgOf && 0.0 <= c.maxTimeout
    ensures Reachable(c, BatchQueued(c, d, 0.0))
  {
    var org := c.orgOf[d];
    var s0 := State(Store(map[], map[], map[], map[]), 0.0, 0.0, None, {}, {}, map[]);
    InitReachable(c, s0);
    hide Reachable;
    var batches := map[0 := Batch(org, BatchStatus.Running, 1, 0, 0)];
    var s1 := s0.(store := s0.store.(batches := batches), left := map[0 := [d]]);
    assert Step(c, s0, Launch(0, org, [d], [d]), s1);
    StepReachable(c, s0, Launch(0, org, [d], [d]), s1);
    var s2 := BatchQueued(c, d, 0.0);
    assert s1.left[0 := []] == s2.left;
    assert Step(c, s1, Create(InBatch0(c, d)), s2);
    StepReachable(c, s1, Create(InBatch0(c, d)), s2);
  }

  lemma PopBatch(c: Config, d: DeviceId, at: Time)
    requires d in c.orgOf && Reachable(c, BatchQueued(c, d, at))
    ensures Reachable(c, BatchFlying(c, d, at))
  {
    hide Reachable;
    var s := BatchQueued(c, d, at);
    FirstIsUnique(s.store.zset, c.orgOf[d], d, 0);
    assert s.store.zset - {Slot(c.orgOf[d], d, 0)} == map[];
    assert Step(c, s, Pop(d), BatchFlying(c, d, at));
    StepReachable(c, s, Pop(d), BatchFlying(c, d, at));
  }

  /** A watchdog cycle over a store with one stale task, the only one of its batch. */
  lemma SweepOnly(st: Store, now: Time, row: Task, batch: Batch)
    requires st.tasks == map[0 := row] && st.batches == map[0 := batch] && row.batch == Some(0)
    requires StaleRunning(row, now) || StalePending(row, now)
    ensures Stale(st.tasks, now) == {0}
    ensures Swept(st, now).tasks == map[0 := row.With(Status.Timeout, now)]
    ensures Swept(st, now).batches == map[0 := TimedOut(batch, 1)]
  {
    OnlyStale(st.tasks, now, row);
    hide Stale, TimedOut, OwnSlots, DevicesOf, StaleRunnings, StalePendings, StaleRunning, StalePending;
    assert InBatch(st.tasks, {0}, 0) == {0};
    assert Marked(st.tasks, {0}, Status.Timeout, now) == map[0 := row.With(Status.Timeout, now)];
    assert TalliedBatches(st.tasks, st.batches, {0}) == map[0 := TimedOut(batch, 1)];
  }

  lemma OnlyStale(tasks: Tasks, now: Time, row: Task)
    requires tasks == map[0 := row] && (StaleRunning(row, now) || StalePending(row, now))
    ensures Stale(tasks, now) == {0}
  {
    assert 0 in StaleRunnings(tasks, now) || 0 in StalePendings(tasks, now);
  }

  /** The task of the batch, sent at time 0 and expired by the watchdog at time 300. */
  lemma ReachExpired(c: Config, d: DeviceId) returns (s: State)
    requires d in c.orgOf && 0.0 <= c.maxTimeout
    ensures Reachable(c, s) && s.flight.None? && 0 in s.sent
    ensures 0 in s.store.tasks && s.store.tasks[0].status == Status.Timeout && s.store.tasks[0].batch == Some(0)
    ensures s.store.batches == map[0 := Batch(c.orgOf[d], BatchStatus.Failed, 1, 0, 1)]
  {
    hide Reachable;
    ReachBatchQueued(c, d);
    PopBatch(c, d, 0.0);
    var s0 := Next(c, BatchFlying(c, d, 0.0), Finish(Delivered, true));
    StepReachable(c, BatchFlying(c, d, 0.0), Finish(Delivered, true), s0);
    var s1 := s0.(now := 299.0, lastTick := 299.0);
    Wait(c, s0, 299.0, s1, 5);
    var s2 := Next(c, s1, Advance(1.0));
    StepReachable(c, s1, Advance(1.0), s2);
    SweepOnly(s2.store, s2.now, s2.store.tasks[0], s2.store.batches[0]);
    s := Next(c, s2, Tick);
    StepReachable(c, s2, Tick, s);
  }

  /**
   A batch of one task can end with one success and one failure: the watchdog expires the task,
   then its result arrives after all.
   */
  lemma LateReportCountsTwice(c: Config, d: DeviceId) returns (s: State)
    requires d in c.orgOf && 0.0 <= c.maxTimeout
    ensures Reachable(c, s) && 0 in s.store.batches
    ensures s.store.batches[0].total == s.store.batches[0].succeeded == s.store.batches[0].failed == 1
  {
    hide Reachable;
    var s0 := ReachExpired(c, d);
    s := Next(c, s0, Result(0, true));
    StepReachable(c, s0, Result(0, true), s);
  }

  /** The watchdog expires a task that has been popped after an hour in its queue, and it is delivered. */
  lemma RevivedAfterExpiry(c: Config, d: DeviceId) returns (s: State)
    requires d in c.orgOf && 0.0 <= c.maxTimeout && 1.0 <= c.maxDelay
    ensures Reachable(c, s) && s.store.tasks.Keys == {0} && s.store.tasks[0].batch == Some(0)
    ensures s.store.tasks[0].status == Status.Running && s.store.tasks[0].startedAt == Some(3601.0)
    ensures s.store.tasks[0].timeout == 0.0
    ensures s.store.batches == map[0 := Batch(c.orgOf[d], BatchStatus.Failed, 1, 0, 1)]
    ensures s.expired == {Expiry.Expiry(0, 3601.0)} && s.flight.None? && s.now == s.lastTick == 3601.0
  {
    hide Reachable;
    ReachBatchQueued(c, d);
    Wait(c, BatchQueued(c, d, 0.0), 3600.0, BatchQueued(c, d, 3600.0), 60);
    PopBatch(c, d, 3600.0);
    var s0 := BatchFlying(c, d, 3600.0);
    var s1 := Next(c, s0, Advance(1.0));
    StepReachable(c, s0, Advance(1.0), s1);
    SweepOnly(s1.store, s1.now, s1.store.tasks[0], s1.store.batches[0]);
    var s2 := Next(c, s1, Tick);
    StepReachable(c, s1, Tick, s2);
    assert Expiries({0}, 3601.0) == {Expiry.Expiry(0, 3601.0)};
    s := Next(c, s2, Finish(Delivered, true));
    StepReachable(c, s2, Finish(Delivered, true), s);
  }

  /** Its second expiry fails a batch of one task twice, without any late report. */
  lemma ExpiryCountsTwice(c: Config, d: DeviceId) returns (s: State)
    requires d in c.orgOf && 0.0 <= c.maxTimeout && 1.0 <= c.maxDelay
    ensures Reachable(c, s) && 0 in s.store.batches
    ensures s.store.batches[0].total == 1 && s.store.batches[0].failed == 2
    ensures LateOf(s, 0) == {} && Repeated(s, 0) == 1
  {
    hide Reachable;
    var s0 := RevivedAfterExpiry(c, d);
    var s1 := s0.(now := 3900.0, lastTick := 3900.0);
    Wait(c, s0, 3900.0, s1, 5);
    var s2 := Next(c, s1, Advance(1.0));
    StepReachable(c, s1, Advance(1.0), s2);
    assert s2.store.tasks == map[0 := s2.store.tasks[0]];
    SweepOnly(s2.store, s2.now, s2.store.tasks[0], s2.store.batches[0]);
    s := Next(c, s2, Tick);
    StepReachable(c, s2, Tick, s);
    TwoExpiries(s, Expiry.Expiry(0, 3601.0), Expiry.Expiry(0, 3901.0));
  }

  lemma TwoExpiries(s: State, e: Expiry, f: Expiry)
    requires s.expired == {e} + Expiries({0}, f.at) && e.task == f.task == 0 && e != f
    requires s.store.tasks.Keys == {0} && s.store.tasks[0].batch == Some(0)
    requires s.store.tasks[0].status == Status.Timeout
    ensures LateOf(s, 0) == {} && Repeated(s, 0) == 1
  {
    assert Expiries({0}, f.at) == {f};
    assert ExpiredOf(s, 0) == {e, f};
    assert ExpiredTasksOf(s, 0) == {0};
    assert CompletedOf(s, 0) == {} && FailedOf(s, 0) == {};
  }
}
