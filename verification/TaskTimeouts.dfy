/**
 TIMEOUT is not a final status. This file says of which tasks it is final all the same: exactly of
 those that were never sent, are in no queue and not in flight.
 */
module TaskTimeouts {
  import opened Prelude
  import opened TaskQueues
  import opened TaskEffects
  import opened TaskRuns
  import opened TaskInvariants
  import opened TaskTiming
  import opened TaskTheorems

  predicate TimedOut(s: State, t: TaskId) {
    t in s.store.tasks && s.store.tasks[t].status == Status.Timeout
  }

  /** Timed out or cancelled: a status in which a task may still wait in its queue or be in flight. */
  predicate Parked(s: State, t: TaskId) {
    t in s.store.tasks && s.store.tasks[t].status in {Status.Timeout, Status.Cancelled}
  }

  predicate InQueue(s: State, t: TaskId)
    requires t in s.store.tasks
  {
    Slot(s.store.tasks[t].org, s.store.tasks[t].device, t) in s.store.zset
  }

  /** The dispatcher has popped `t` and is not done with it. */
  predicate InHand(s: State, t: TaskId) {
    s.flight.Some? && s.flight.value.task == t
  }

  /** What can still bring a timed-out task back: an answer, a queue, or the dispatch under way. */
  predicate Unsettled(s: State, t: TaskId)
    requires t in s.store.tasks
  {
    t in s.sent || InQueue(s, t) || InHand(s, t)
  }

  // ── a settled timeout is final ──

  ghost predicate Settled(s: State, t: TaskId) {
    && TimedOut(s, t) && t !in s.sent && !InHand(s, t)
    && forall slot | slot in s.store.zset :: slot.task != t
  }

  lemma SettledDispatch(c: Config, s: State, a: Action, s': State, t: TaskId)
    requires Settled(s, t) && Step(c, s, a, s') && (a.Pop? || a.Finish?)
    ensures Settled(s', t)
  {
  }

  lemma SettledCreate(c: Config, s: State, a: Action, s': State, t: TaskId)
    requires Settled(s, t) && Step(c, s, a, s') && a.Create?
    ensures Settled(s', t)
  {
  }

  lemma SettledOther(c: Config, s: State, a: Action, s': State, t: TaskId)
    requires Settled(s, t) && Step(c, s, a, s') && !a.Create? && !a.Pop? && !a.Finish?
    ensures Settled(s', t)
  {
  }

  lemma SettledStays(c: Config, s: State, s': State, t: TaskId)
    requires Settled(s, t) && Leads(c, s, s')
    ensures Settled(s', t)
  {
    hide Step, Settled;
    var states: seq<State>, actions: seq<Action> :|
      Steps(c, states, actions) && states[0] == s && states[|states| - 1] == s';
    for n := 0 to |actions|
      invariant Settled(states[n], t)
    {
      assert Step(c, states[n], actions[n], states[n + 1]);
      if actions[n].Pop? || actions[n].Finish? {
        SettledDispatch(c, states[n], actions[n], states[n + 1], t);
      } else if actions[n].Create? {
        SettledCreate(c, states[n], actions[n], states[n + 1], t);
      } else {
        SettledOther(c, states[n], actions[n], states[n + 1], t);
      }
    }
  }

  // ── an unsettled one can be moved ──

  /** `s'` comes after `s` and `t` has left TIMEOUT there. */
  ghost predicate MovedOn(c: Config, s: State, s': State, t: TaskId) {
    Leads(c, s, s') && t in s'.store.tasks && s'.store.tasks[t].status != Status.Timeout
  }

  /** `s'` comes after `s` and `t` runs there. */
  ghost predicate RunsLater(c: Config, s: State, s': State, t: TaskId) {
    Leads(c, s, s') && t in s'.store.tasks && s'.store.tasks[t].status == Status.Running
  }

  /** A late answer closes a task that was sent. */
  lemma AnswerMoves(c: Config, s: State, t: TaskId) returns (s': State)
    requires Inv(c, s) && TimedOut(s, t) && t in s.sent
    ensures MovedOn(c, s, s', t)
  {
    s' := Next(c, s, Result(t, true));
    LeadsSelf(c, s);
    assert Step(c, s, Result(t, true), s');
    LeadsOn(c, s, s, Result(t, true), s');
  }

  /** A delivery starts the task in flight. */
  lemma DeliveryStarts(c: Config, s: State, t: TaskId) returns (s': State)
    requires Inv(c, s) && Parked(s, t) && InHand(s, t)
    ensures RunsLater(c, s, s', t)
  {
    s' := Next(c, s, Finish(Delivered, true));
    LeadsSelf(c, s);
    assert Step(c, s, Finish(Delivered, true), s');
    LeadsOn(c, s, s, Finish(Delivered, true), s');
  }

  /** `t` waits in its queue and the dispatcher is idle. */
  ghost predicate Idle(c: Config, s: State, t: TaskId) {
    && Parked(s, t) && InQueue(s, t) && s.flight.None?
    && s.store.tasks[t].device in c.orgOf && s.store.tasks[t].org == c.orgOf[s.store.tasks[t].device]
    && s.lastTick <= s.now <= s.lastTick + TICK
  }

  /** A dispatch of another task that is under way can raise. */
  lemma BecomesIdle(c: Config, s: State, t: TaskId) returns (s': State)
    requires Inv(c, s) && Parked(s, t) && InQueue(s, t) && s.lastTick <= s.now <= s.lastTick + TICK
    ensures Leads(c, s, s') && Idle(c, s', t)
  {
    LeadsSelf(c, s);
    s' := s;
    if s.flight.Some? {
      s' := Next(c, s, Finish(Raised, false));
      assert Step(c, s, Finish(Raised, false), s');
      LeadsOn(c, s, s, Finish(Raised, false), s');
    }
  }

  /** Locks only go while the dispatcher is idle and nobody else acts. */
  predicate FewerLocks(s: State, s': State, t: TaskId)
    requires t in s.store.tasks && t in s'.store.tasks
  {
    var d := s.store.tasks[t].device;
    && s'.store.tasks[t].device == d
    && (d in s'.store.locks ==> d in s.store.locks && s'.store.locks[d] == s.store.locks[d])
  }

  lemma IdleAdvance(c: Config, s: State, t: TaskId, dt: Time) returns (s': State)
    requires Idle(c, s, t) && dt > 0.0 && s.now + dt <= s.lastTick + TICK
    ensures Step(c, s, Advance(dt), s') && Idle(c, s', t) && FewerLocks(s, s', t)
    ensures s'.now == s.now + dt && s'.lastTick == s.lastTick
  {
    s' := Next(c, s, Advance(dt));
  }

  lemma IdleTick(c: Config, s: State, t: TaskId) returns (s': State)
    requires Idle(c, s, t)
    ensures Step(c, s, Tick, s') && Idle(c, s', t) && FewerLocks(s, s', t)
    ensures s'.now == s.now == s'.lastTick
  {
    s' := Next(c, s, Tick);
  }

  lemma {:induction false} IdleUntil(c: Config, s0: State, s: State, t: TaskId, until: Time, cycles: nat)
    returns (s': State)
    requires Leads(c, s0, s) && Idle(c, s, t) && until <= s.lastTick + cycles as real * TICK
    ensures Leads(c, s0, s') && Idle(c, s', t) && FewerLocks(s, s', t) && until <= s'.now
    decreases cycles
  {
    if until <= s.now {
      s' := s;
    } else {
      hide Step, Leads;
      var s1 := s;
      if s.now < s.lastTick + TICK {
        s1 := IdleAdvance(c, s, t, s.lastTick + TICK - s.now);
        LeadsOn(c, s0, s, Advance(s.lastTick + TICK - s.now), s1);
      }
      var s2 := IdleTick(c, s1, t);
      LeadsOn(c, s0, s1, Tick, s2);
      s' := IdleUntil(c, s0, s2, t, until, cycles - 1);
    }
  }

  /** Time enough, and the lock on the device of `t` is gone. */
  lemma BecomesUnlocked(c: Config, s0: State, s: State, t: TaskId) returns (s': State)
    requires Leads(c, s0, s) && Idle(c, s, t)
    ensures Leads(c, s0, s') && Idle(c, s', t)
    ensures !Live(s'.store.locks, s'.store.tasks[t].device, s'.now)
  {
    var d := s.store.tasks[t].device;
    s' := s;
    if d in s.store.locks {
      var until := s.store.locks[d].expires;
      var gap := if until > s.lastTick then until - s.lastTick else 0.0;
      var cycles: nat := (gap / TICK).Floor + 1;
      assert gap / TICK <= cycles as real;
      assert gap <= cycles as real * TICK;
      s' := IdleUntil(c, s0, s, t, until, cycles);
    }
  }

  /** The pop of the first member of the queue of `t`. */
  lemma PopFirst(c: Config, s: State, t: TaskId) returns (u: TaskId, s': State)
    requires Inv(c, s) && Idle(c, s, t) && !Live(s.store.locks, s.store.tasks[t].device, s.now)
    ensures var d := s.store.tasks[t].device;
            && Step(c, s, Pop(d), s') && s'.flight == Some(Flight(u, d, s.now))
            && Slot(c.orgOf[d], d, u) in s.store.zset
            && s'.store.zset == s.store.zset - {Slot(c.orgOf[d], d, u)}
            && s'.store.tasks == s.store.tasks && s'.now == s.now && s'.lastTick == s.lastTick
  {
    var d := s.store.tasks[t].device;
    assert t in Members(s.store.zset, c.orgOf[d], d);
    u := First(s.store.zset, c.orgOf[d], d).value;
    s' := Next(c, s, Pop(d));
  }

  /** A task that stands before `t` is delivered and stopped by force, which frees the device. */
  lemma ClearsAway(c: Config, s: State, t: TaskId) returns (s1: State, s2: State)
    requires Inv(c, s) && Parked(s, t) && InQueue(s, t) && s.flight.Some? && s.flight.value.task != t
    requires s.flight.value.device == s.store.tasks[t].device && s.lastTick <= s.now <= s.lastTick + TICK
    ensures Step(c, s, Finish(Delivered, true), s1)
    ensures Step(c, s1, ForceStop(s.flight.value.task, s.store.tasks[t].org), s2)
    ensures Idle(c, s2, t) && s2.store.zset == s.store.zset
    ensures s2.store.tasks[t].device !in s2.store.locks
  {
    var u := s.flight.value.task;
    s1 := Next(c, s, Finish(Delivered, true));
    assert s1.store.tasks == s.store.tasks[u := s.store.tasks[u].Start(s.now)];
    s2 := Next(c, s1, ForceStop(u, s.store.tasks[t].org));
    assert s2.store.tasks == s1.store.tasks[u := s1.store.tasks[u].With(Status.Cancelled, s.now)];
  }

  lemma {:induction false} QueueReachesTask(c: Config, s0: State, s: State, t: TaskId) returns (s': State)
    requires Reachable(c, s0) && Leads(c, s0, s) && Idle(c, s, t)
    requires !Live(s.store.locks, s.store.tasks[t].device, s.now)
    ensures RunsLater(c, s0, s', t)
    decreases |s.store.zset|
  {
    hide Step, Inv, Reachable, Deadlines, Leads, Locked;
    InvFrom(c, s0, s);
    var d := s.store.tasks[t].device;
    var u, s1 := PopFirst(c, s, t);
    LeadsOn(c, s0, s, Pop(d), s1);
    InvFrom(c, s0, s1);
    if u == t {
      s' := DeliveryStarts(c, s1, t);
      LeadsThrough(c, s0, s1, s');
    } else {
      FewerSlots(s.store.zset, Slot(c.orgOf[d], d, u));
      var s2, s3 := ClearsAway(c, s1, t);
      LeadsOn(c, s0, s1, Finish(Delivered, true), s2);
      LeadsOn(c, s0, s2, ForceStop(u, s1.store.tasks[t].org), s3);
      s' := QueueReachesTask(c, s0, s3, t);
    }
  }

  lemma InvFrom(c: Config, s0: State, s: State)
    requires Reachable(c, s0) && Leads(c, s0, s)
    ensures Inv(c, s)
  {
    LeadsFromReachable(c, s0, s);
    ReachableInv(c, s);
  }

  lemma FewerSlots(z: Zset, slot: Slot)
    requires slot in z
    ensures |z - {slot}| < |z|
  {
    assert z.Keys == (z - {slot}).Keys + {slot};
  }

  lemma LeadsThrough(c: Config, s: State, mid: State, s': State)
    requires Leads(c, s, mid) && Leads(c, mid, s')
    ensures Leads(c, s, s')
  {
    hide Step;
    var states: seq<State>, actions: seq<Action> :|
      Steps(c, states, actions) && states[0] == mid && states[|states| - 1] == s';
    for n := 0 to |actions|
      invariant Leads(c, s, states[n])
    {
      assert Step(c, states[n], actions[n], states[n + 1]);
      LeadsOn(c, s, states[n], actions[n], states[n + 1]);
    }
  }

  /** A parked task that is queued or in flight can still run. */
  lemma ParkedRuns(c: Config, s: State, t: TaskId) returns (s': State)
    requires Reachable(c, s) && Parked(s, t)
    requires InQueue(s, t) || InHand(s, t)
    ensures RunsLater(c, s, s', t)
  {
    ReachableInv(c, s);
    assert s.lastTick <= s.now <= s.lastTick + TICK;
    hide Inv, Deadlines, Reachable, Leads, Locked, Step;
    if InHand(s, t) {
      s' := DeliveryStarts(c, s, t);
    } else {
      var s1 := BecomesIdle(c, s, t);
      var s2 := BecomesUnlocked(c, s, s1, t);
      s' := QueueReachesTask(c, s, s2, t);
    }
  }

  lemma UnsettledMoves(c: Config, s: State, t: TaskId) returns (s': State)
    requires Reachable(c, s) && TimedOut(s, t) && Unsettled(s, t)
    ensures MovedOn(c, s, s', t)
  {
    if t in s.sent {
      ReachableInv(c, s);
      hide Inv, Deadlines, Reachable, Leads, Locked;
      s' := AnswerMoves(c, s, t);
    } else {
      s' := ParkedRuns(c, s, t);
    }
  }

  /**
   In every reachable state a TIMEOUT task can still become something else, on some continuation of
   the run, exactly when it was sent, is in its queue, or is in flight.
   */
  lemma TimeoutIsFinalExactly(c: Config, s: State, t: TaskId)
    requires Reachable(c, s) && TimedOut(s, t)
    ensures (exists s' :: MovedOn(c, s, s', t)) <==> Unsettled(s, t)
  {
    if Unsettled(s, t) {
      var s' := UnsettledMoves(c, s, t);
    } else {
      SlotsAreOwn(c, s, t);
      forall s' | Leads(c, s, s') ensures TimedOut(s', t) {
        SettledStays(c, s, s', t);
      }
    }
  }

  lemma SlotsAreOwn(c: Config, s: State, t: TaskId)
    requires Reachable(c, s) && TimedOut(s, t) && !Unsettled(s, t)
    ensures Settled(s, t)
  {
    ReachableInv(c, s);
    hide Reachable, Deadlines, Locked;
    forall slot | slot in s.store.zset ensures slot.task != t {
      assert slot == Slot(slot.org, slot.device, slot.task);
    }
  }
}
