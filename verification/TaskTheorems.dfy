/** The guarantees of the task protocol, for every reachable state. */
module TaskTheorems {
  import opened Prelude
  import opened TaskQueues
  import opened TaskEffects
  import opened TaskRuns
  import opened TaskInvariants
  import opened TaskTiming

  /** Every state of every run keeps the deadlines. */
  lemma {:induction false} DeadlinesRun(c: Config, states: seq<State>, actions: seq<Action>, i: nat)
    requires Run(c, states, actions) && i < |states|
    ensures Inv(c, states[i]) && Deadlines(states[i])
  {
    InvRun(c, states, actions, i);
    if i == 0 {
    } else {
      StepAt(c, states, actions, i);
      hide *;
      DeadlinesRun(c, states, actions, i - 1);
      DeadlineStep(c, states[i - 1], actions[i - 1], states[i]);
    }
  }

  /** If the bounds fit into the life of a lock, every state of every run keeps the lock invariant. */
  lemma {:induction false} LockedRun(c: Config, states: seq<State>, actions: seq<Action>, i: nat)
    requires Fits(c) && Run(c, states, actions) && i < |states|
    ensures Locked(c, states[i])
  {
    if i == 0 {
    } else {
      StepAt(c, states, actions, i);
      hide *;
      DeadlinesRun(c, states, actions, i - 1);
      LockedRun(c, states, actions, i - 1);
      LockedStep(c, states[i - 1], actions[i - 1], states[i]);
    }
  }

  lemma ReachableInv(c: Config, s: State)
    requires Reachable(c, s)
    ensures Inv(c, s) && Deadlines(s)
    ensures Fits(c) ==> Locked(c, s)
  {
    hide Inv, Deadlines, Locked, Step;
    var states, actions :| Run(c, states, actions) && states[|states| - 1] == s;
    DeadlinesRun(c, states, actions, |states| - 1);
    if Fits(c) {
      LockedRun(c, states, actions, |states| - 1);
    }
  }

  /** At most one task per device is RUNNING. */
  ghost predicate Exclusive(s: State) {
    forall t, u | t in s.store.tasks && u in s.store.tasks
                  && s.store.tasks[t].status == Status.Running && s.store.tasks[u].status == Status.Running
                  && s.store.tasks[t].device == s.store.tasks[u].device :: t == u
  }

  /** Every running task holds the live lock of its device, so no device runs two tasks. */
  lemma MutualExclusion(c: Config, s: State)
    requires Fits(c) && Reachable(c, s)
    ensures Exclusive(s)
    ensures forall t | t in s.store.tasks && s.store.tasks[t].status == Status.Running ::
              var d := s.store.tasks[t].device;
              Live(s.store.locks, d, s.now) && s.store.locks[d].owner == t
  {
    ReachableInv(c, s);
    forall t | t in s.store.tasks && s.store.tasks[t].status == Status.Running
      ensures var d := s.store.tasks[t].device;
              Live(s.store.locks, d, s.now) && s.store.locks[d].owner == t
    {
      RunnerIsLive(c, s, t);
    }
  }

  /** `t` is in its own queue, in the hands of the dispatcher, or holds its device's live lock. */
  predicate WithinReach(s: State, t: TaskId)
    requires t in s.store.tasks
  {
    var row := s.store.tasks[t];
    || Slot(row.org, row.device, t) in s.store.zset
    || (s.flight.Some? && s.flight.value.task == t)
    || (Live(s.store.locks, row.device, s.now) && s.store.locks[row.device].owner == t)
  }

  ghost predicate NoneOutOfReach(s: State) {
    forall t | t in s.store.tasks && s.store.tasks[t].status == Status.Queued
               && s.now < s.store.tasks[t].createdAt + 3600.0 :: WithinReach(s, t)
  }

  /** No queued task is lost within its hour, not even after a dispatch that raised. */
  lemma NoQueuedTaskIsLost(c: Config, s: State)
    requires Fits(c) && Reachable(c, s)
    ensures NoneOutOfReach(s)
  {
    ReachableInv(c, s);
  }

  /** No task stays QUEUED past 3660 s from its creation or RUNNING past timeout + 360 s. */
  lemma NoTaskIsStuck(c: Config, s: State, t: TaskId)
    requires Reachable(c, s) && t in s.store.tasks
    ensures s.store.tasks[t].status != Status.Assigned
    ensures s.store.tasks[t].status == Status.Queued ==> s.now <= s.store.tasks[t].createdAt + 3660.0
    ensures s.store.tasks[t].status == Status.Running ==>
              s.store.tasks[t].startedAt.Some?
              && s.now < s.store.tasks[t].startedAt.value + s.store.tasks[t].timeout + 360.0
  {
    ReachableInv(c, s);
  }

  /** An open task that gives way to a duplicate although its device is not known to be off line. */
  predicate AgedOut(s: State, t: TaskId) {
    t in s.store.tasks && s.store.tasks[t].Open() && GivesWay(s.store.tasks[t], None, s.now)
  }

  /** With timeouts of at most 24 hours less 360 s the watchdog is always faster than the 24-hour test. */
  lemma WatchdogBeatsDay(c: Config, s: State, t: TaskId)
    requires Reachable(c, s) && c.maxTimeout <= DAY - 360.0
    ensures !AgedOut(s, t)
  {
    if t in s.store.tasks {
      NoTaskIsStuck(c, s, t);
      ReachableInv(c, s);
    }
  }

  /** A lock never blocks a device for more than 3600 s from now. */
  lemma {:induction false} LocksAreBounded(c: Config, states: seq<State>, actions: seq<Action>, i: nat)
    requires Run(c, states, actions) && i < |states|
    ensures LocksBounded(states[i])
  {
    if i == 0 {
    } else {
      StepAt(c, states, actions, i);
      hide *;
      LocksAreBounded(c, states, actions, i - 1);
      LocksBoundedStep(c, states[i - 1], actions[i - 1], states[i]);
    }
  }
}
