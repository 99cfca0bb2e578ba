/**
 What stays over all runs: the isolation of queues, final statuses, and expiries by the watchdog;
 and which dispatcher steps, for a row written since its pop, are the only ones to undo them.
 */
module TaskFinality {
  import opened TaskQueues
  import opened TaskEffects
  import opened TaskRuns
  import opened TaskInvariants

  /** Rows, slots and the task in flight agree on device and organisation. */
  ghost predicate Isolated(c: Config, s: State) {
    && (forall t | t in s.store.tasks ::
          s.store.tasks[t].device in c.orgOf && s.store.tasks[t].org == c.orgOf[s.store.tasks[t].device])
    && (forall slot | slot in s.store.zset ::
          && slot.task in s.store.tasks
          && s.store.tasks[slot.task].device == slot.device && s.store.tasks[slot.task].org == slot.org)
    && (s.flight.Some? ==>
          var f := s.flight.value;
          f.task in s.store.tasks && s.store.tasks[f.task].device == f.device && f.device in c.orgOf)
  }

  /**
   Queues are isolated: whatever a pop returns belongs to the device and organisation it was
   popped for, so the device-mismatch branch of the dispatcher is dead code.
   */
  lemma QueuesAreIsolated(c: Config, states: seq<State>, actions: seq<Action>, i: nat)
    requires Run(c, states, actions) && i < |states|
    ensures Isolated(c, states[i])
  {
    InvRun(c, states, actions, i);
    hide Run;
  }

  // ── final statuses ──

  /** `t` keeps its row, and its status if that is final. */
  ghost predicate KeepsFinal(s: State, s': State, t: TaskId)
    requires t in s.store.tasks
  {
    && t in s'.store.tasks
    && (s.store.tasks[t].Final() ==> s'.store.tasks[t].status == s.store.tasks[t].status)
  }

  ghost predicate KeepsFinals(s: State, s': State) {
    forall t | t in s.store.tasks :: KeepsFinal(s, s', t)
  }

  /**
   The one step that undoes a final status, told by a look at the row before the dispatcher writes
   it: the row was cancelled since the pop, and is now delivered or failed for want of a version.
   */
  predicate Overwrites(s: State, a: Action) {
    && a.Finish? && (a.outcome.Delivered? || a.outcome.NoVersion?)
    && s.flight.Some? && s.flight.value.task in s.store.tasks
    && s.store.tasks[s.flight.value.task].status == Status.Cancelled
  }

  lemma FinishKeepsExactly(c: Config, s: State, a: Action, s': State)
    requires Inv(c, s) && Step(c, s, a, s') && a.Finish?
    ensures KeepsFinals(s, s') <==> !Overwrites(s, a)
  {
    var t := s.flight.value.task;
    assert KeepsFinals(s, s') ==> KeepsFinal(s, s', t);
    assert forall u | u in s.store.tasks && u != t :: s'.store.tasks[u] == s.store.tasks[u];
  }

  lemma CreateAndPopKeep(c: Config, s: State, a: Action, s': State)
    requires Step(c, s, a, s') && (a.Create? || a.Pop?)
    ensures KeepsFinals(s, s')
  {
  }

  lemma OthersKeep(c: Config, s: State, a: Action, s': State)
    requires Step(c, s, a, s') && !a.Create? && !a.Pop? && !a.Finish?
    ensures KeepsFinals(s, s')
  {
  }

  /** A step keeps all final statuses exactly when it is not an overwriting one. */
  lemma FinalStepExactly(c: Config, s: State, a: Action, s': State)
    requires Inv(c, s) && Step(c, s, a, s')
    ensures KeepsFinals(s, s') <==> !Overwrites(s, a)
  {
    hide Inv, Step, KeepsFinals;
    if a.Finish? {
      FinishKeepsExactly(c, s, a, s');
    } else if a.Create? || a.Pop? {
      CreateAndPopKeep(c, s, a, s');
    } else {
      OthersKeep(c, s, a, s');
    }
  }

  lemma StepKeeps(c: Config, states: seq<State>, actions: seq<Action>, k: nat)
    requires Run(c, states, actions) && k < |actions|
    ensures |states| == |actions| + 1
    ensures KeepsFinals(states[k], states[k + 1]) <==> !Overwrites(states[k], actions[k])
  {
    hide Step, Inv, Overwrites, KeepsFinals;
    StepAt(c, states, actions, k + 1);
    InvRun(c, states, actions, k);
    FinalStepExactly(c, states[k], actions[k], states[k + 1]);
  }

  lemma FinalKept(s: State, s': State, t: TaskId)
    requires KeepsFinals(s, s') && t in s.store.tasks && s.store.tasks[t].Final()
    ensures t in s'.store.tasks && s'.store.tasks[t].status == s.store.tasks[t].status
    ensures s'.store.tasks[t].Final()
  {
    assert KeepsFinal(s, s', t);
  }

  /** Final statuses stay from state i to state j of a run without overwriting steps in between. */
  lemma {:induction false} FinalsStay(c: Config, states: seq<State>, actions: seq<Action>, i: nat, j: nat, t: TaskId)
    requires Run(c, states, actions) && i <= j < |states|
    requires forall k | i <= k < j && k < |actions| :: !Overwrites(states[k], actions[k])
    requires t in states[i].store.tasks && states[i].store.tasks[t].Final()
    ensures t in states[j].store.tasks
    ensures states[j].store.tasks[t].status == states[i].store.tasks[t].status
    decreases j
  {
    hide *;
    if i == j {
    } else {
      FinalsStay(c, states, actions, i, j - 1, t);
      StepAt(c, states, actions, j);
      StepKeeps(c, states, actions, j - 1);
      SameFinal(states[i], states[j - 1], t);
      FinalKept(states[j - 1], states[j], t);
    }
  }

  lemma SameFinal(s: State, s': State, t: TaskId)
    requires t in s.store.tasks && t in s'.store.tasks && s'.store.tasks[t].status == s.store.tasks[t].status
    ensures s'.store.tasks[t].Final() <==> s.store.tasks[t].Final()
  {
  }

  /** Every final status in the run stays for the rest of it. */
  ghost predicate FinalForGood(states: seq<State>) {
    forall i, j | 0 <= i <= j < |states| :: KeepsFinals(states[i], states[j])
  }

  /**
   Over all runs: final statuses are absorbing exactly when the dispatcher never writes a row that
   was cancelled since the pop.
   */
  lemma FinalIsAbsorbingExactly(c: Config, states: seq<State>, actions: seq<Action>)
    requires Run(c, states, actions)
    ensures |states| == |actions| + 1
    ensures FinalForGood(states) <==> forall k | 0 <= k < |actions| :: !Overwrites(states[k], actions[k])
  {
    hide Step, Inv, Overwrites, Init;
    forall k | 0 <= k < |actions|
      ensures KeepsFinals(states[k], states[k + 1]) <==> !Overwrites(states[k], actions[k])
    {
      StepKeeps(c, states, actions, k);
    }
    if forall k | 0 <= k < |actions| :: !Overwrites(states[k], actions[k]) {
      forall i, j | 0 <= i <= j < |states| ensures KeepsFinals(states[i], states[j]) {
        RowsStay(c, states, actions, i, j);
        forall t | t in states[i].store.tasks && states[i].store.tasks[t].Final() {
          FinalsStay(c, states, actions, i, j, t);
        }
      }
    } else {
      var k :| 0 <= k < |actions| && Overwrites(states[k], actions[k]);
      assert !KeepsFinals(states[k], states[k + 1]);
    }
  }

  lemma RowsKept(c: Config, s: State, a: Action, s': State)
    requires Step(c, s, a, s')
    ensures s.store.tasks.Keys <= s'.store.tasks.Keys
  {
  }

  lemma {:induction false} RowsStay(c: Config, states: seq<State>, actions: seq<Action>, i: nat, j: nat)
    requires Run(c, states, actions) && i <= j < |states|
    ensures states[i].store.tasks.Keys <= states[j].store.tasks.Keys
    decreases j
  {
    hide *;
    if i == j {
    } else {
      RowsStay(c, states, actions, i, j - 1);
      StepAt(c, states, actions, j);
      RowsKept(c, states[j - 1], actions[j - 1], states[j]);
    }
  }

  /** COMPLETED, or FAILED by a report or for want of a version. */
  predicate Closed(s: State, t: TaskId) {
    t in s.store.tasks && s.store.tasks[t].status in {Status.Completed, Status.Failed}
  }

  lemma FinishKeepsClosed(c: Config, s: State, a: Action, s': State, t: TaskId)
    requires Inv(c, s) && Step(c, s, a, s') && a.Finish? && Closed(s, t)
    ensures Closed(s', t) && s'.store.tasks[t].status == s.store.tasks[t].status
  {
    assert t != s.flight.value.task;
  }

  lemma ClosedStep(c: Config, s: State, a: Action, s': State, t: TaskId)
    requires Inv(c, s) && Step(c, s, a, s') && Closed(s, t)
    ensures Closed(s', t) && s'.store.tasks[t].status == s.store.tasks[t].status
  {
    if a.Finish? {
      hide Inv, Step, Closed;
      FinishKeepsClosed(c, s, a, s', t);
    } else {
      FinalStepExactly(c, s, a, s');
      hide Inv, Step, KeepsFinals;
      FinalKept(s, s', t);
    }
  }

  lemma ClosedInRows(s: State, t: TaskId)
    requires Closed(s, t)
    ensures t in s.store.tasks
  {
  }

  /** COMPLETED and FAILED never change again, in every run; only CANCELLED can be undone. */
  lemma {:induction false} ClosedIsAbsorbing(c: Config, states: seq<State>, actions: seq<Action>,
                                             i: nat, j: nat, t: TaskId)
    requires Run(c, states, actions) && i <= j < |states| && Closed(states[i], t)
    ensures Closed(states[j], t)
    ensures t in states[i].store.tasks && t in states[j].store.tasks
    ensures states[j].store.tasks[t].status == states[i].store.tasks[t].status
    decreases j
  {
    hide *;
    if i == j {
      ClosedInRows(states[i], t);
    } else {
      ClosedIsAbsorbing(c, states, actions, i, j - 1, t);
      StepAt(c, states, actions, j);
      InvRun(c, states, actions, j - 1);
      ClosedInRows(states[j - 1], t);
      ClosedStep(c, states[j - 1], actions[j - 1], states[j], t);
      ClosedInRows(states[j], t);
    }
  }

  /** Where the row in flight is never cancelled, all three statuses are absorbing. */
  lemma FinalIsAbsorbing(c: Config, states: seq<State>, actions: seq<Action>)
    requires Run(c, states, actions)
    requires forall s | s in states && s.flight.Some? && s.flight.value.task in s.store.tasks ::
               s.store.tasks[s.flight.value.task].status != Status.Cancelled
    ensures FinalForGood(states)
  {
    hide Run, FinalForGood;
    FinalIsAbsorbingExactly(c, states, actions);
    assert forall k | 0 <= k < |actions| :: states[k] in states && !Overwrites(states[k], actions[k]);
  }

  // ── expired tasks ──

  ghost function ExpiredTasks(s: State): set<TaskId> {
    set e | e in s.expired :: e.task
  }

  /** An expired task neither waits nor runs, and is in no queue. */
  ghost predicate ExpiredAreDone(s: State) {
    && (forall t | t in ExpiredTasks(s) && t in s.store.tasks :: !s.store.tasks[t].Open())
    && (forall slot | slot in s.store.zset :: slot.task !in ExpiredTasks(s))
  }

  /** The dispatcher delivers, or puts back, a row that the watchdog has expired since the pop. */
  ghost predicate Revives(s: State, a: Action) {
    && a.Finish? && (a.outcome.Delivered? || a.outcome.NotDelivered?)
    && s.flight.Some? && s.flight.value.task in ExpiredTasks(s)
  }

  lemma SameExpired(s: State, s': State)
    requires s'.expired == s.expired
    ensures ExpiredTasks(s') == ExpiredTasks(s)
  {
  }

  lemma DoneFinish(c: Config, s: State, a: Action, s': State)
    requires Inv(c, s) && ExpiredAreDone(s) && Step(c, s, a, s') && a.Finish?
    ensures ExpiredAreDone(s') <==> !Revives(s, a)
  {
    SameExpired(s, s');
    hide ExpiredTasks;
    var f := s.flight.value;
    assert a.outcome.NotDelivered? ==> Slot(c.orgOf[f.device], f.device, f.task) in s'.store.zset;
    assert a.outcome.Delivered? ==> s'.store.tasks[f.task].Open();
  }

  lemma MoreExpired(s: State, s': State, more: set<TaskId>, at: Time)
    requires s'.expired == s.expired + Expiries(more, at)
    ensures ExpiredTasks(s') == ExpiredTasks(s) + more
  {
    forall t | t in more ensures t in ExpiredTasks(s') {
      assert Expiry(t, at) in s'.expired;
    }
  }

  lemma DoneTick(c: Config, s: State, s': State)
    requires Inv(c, s) && ExpiredAreDone(s) && Step(c, s, Tick, s')
    ensures ExpiredAreDone(s')
  {
    MoreExpired(s, s', Stale(s.store.tasks, s.now), s.now);
    hide ExpiredTasks;
    forall slot | slot in s'.store.zset ensures slot.task !in Stale(s.store.tasks, s.now) {
      assert slot in s.store.zset;
      assert slot == Slot(s.store.tasks[slot.task].org, s.store.tasks[slot.task].device, slot.task);
    }
  }

  lemma DoneCreate(c: Config, s: State, a: Action, s': State)
    requires PastExpiries(s) && ExpiredAreDone(s) && Step(c, s, a, s') && a.Create?
    ensures ExpiredAreDone(s')
  {
    SameExpired(s, s');
    assert a.request.task !in ExpiredTasks(s);
    hide ExpiredTasks;
  }

  lemma DoneOther(c: Config, s: State, a: Action, s': State)
    requires ExpiredAreDone(s) && Step(c, s, a, s') && !a.Create? && !a.Finish? && !a.Tick?
    ensures ExpiredAreDone(s')
  {
    SameExpired(s, s');
    hide ExpiredTasks;
  }

  /** Where expired tasks are done, a step leaves them so exactly when it revives none. */
  lemma DoneStepExactly(c: Config, s: State, a: Action, s': State)
    requires Inv(c, s) && PastExpiries(s) && ExpiredAreDone(s) && Step(c, s, a, s')
    ensures ExpiredAreDone(s') <==> !Revives(s, a)
  {
    assert !a.Finish? ==> !Revives(s, a);
    hide Inv, PastExpiries, ExpiredAreDone, Step, Revives;
    if a.Finish? {
      DoneFinish(c, s, a, s');
    } else if a.Tick? {
      DoneTick(c, s, s');
    } else if a.Create? {
      DoneCreate(c, s, a, s');
    } else {
      DoneOther(c, s, a, s');
    }
  }

  lemma DoneInit(s: State)
    requires Init(s)
    ensures ExpiredAreDone(s)
  {
  }

  lemma {:induction false} DoneUpTo(c: Config, states: seq<State>, actions: seq<Action>, i: nat)
    requires Run(c, states, actions) && i < |states|
    requires forall k | 0 <= k < i && k < |actions| :: !Revives(states[k], actions[k])
    ensures ExpiredAreDone(states[i])
  {
    hide *;
    if i == 0 {
      StartsInit(c, states, actions);
      DoneInit(states[0]);
    } else {
      StepAt(c, states, actions, i);
      DoneUpTo(c, states, actions, i - 1);
      InvRun(c, states, actions, i - 1);
      PastRun(c, states, actions, i - 1);
      DoneStepExactly(c, states[i - 1], actions[i - 1], states[i]);
    }
  }

  /**
   Over all runs: a task the watchdog has expired never waits, runs or is queued again, exactly when
   the dispatcher never delivers or puts back a row expired since its pop.
   */
  lemma ExpiredNeverRunsAgainExactly(c: Config, states: seq<State>, actions: seq<Action>)
    requires Run(c, states, actions)
    ensures |states| == |actions| + 1
    ensures (forall s | s in states :: ExpiredAreDone(s))
       <==> forall k | 0 <= k < |actions| :: !Revives(states[k], actions[k])
  {
    hide Step, Inv, ExpiredAreDone, Revives, Init;
    if forall k | 0 <= k < |actions| :: !Revives(states[k], actions[k]) {
      forall i | 0 <= i < |states| ensures ExpiredAreDone(states[i]) {
        DoneUpTo(c, states, actions, i);
      }
    }
    if forall s | s in states :: ExpiredAreDone(s) {
      forall k | 0 <= k < |actions| ensures !Revives(states[k], actions[k]) {
        assert states[k] in states && states[k + 1] in states;
        StepAt(c, states, actions, k + 1);
        InvRun(c, states, actions, k);
        PastRun(c, states, actions, k);
        DoneStepExactly(c, states[k], actions[k], states[k + 1]);
      }
    }
  }

  /** No task was expired twice. */
  ghost predicate ExpiredOnce(s: State) {
    forall e, f | e in s.expired && f in s.expired && e.task == f.task :: e == f
  }

  lemma OnceStep(c: Config, s: State, a: Action, s': State)
    requires ExpiredAreDone(s) && ExpiredOnce(s) && Step(c, s, a, s')
    ensures ExpiredOnce(s')
  {
    if a.Tick? {
      OnceTick(c, s, s');
    } else {
      assert s'.expired == s.expired;
    }
  }

  lemma OnceTick(c: Config, s: State, s': State)
    requires ExpiredAreDone(s) && ExpiredOnce(s) && Step(c, s, Tick, s')
    ensures ExpiredOnce(s')
  {
    var stale := Stale(s.store.tasks, s.now);
    assert s'.expired == s.expired + Expiries(stale, s.now);
    forall e | e in s.expired ensures e.task !in stale {
      assert e.task in ExpiredTasks(s);
    }
    hide Step, Stale, ExpiredAreDone;
  }

  /** Up to the first such step, each task is expired at most once. */
  lemma {:induction false} ExpiredAtMostOnce(c: Config, states: seq<State>, actions: seq<Action>, i: nat)
    requires Run(c, states, actions) && i < |states|
    requires forall k | 0 <= k < i && k < |actions| :: !Revives(states[k], actions[k])
    ensures ExpiredOnce(states[i])
  {
    if i == 0 {
      StartsInit(c, states, actions);
      hide Run;
    } else {
      hide *;
      StepAt(c, states, actions, i);
      ExpiredAtMostOnce(c, states, actions, i - 1);
      DoneUpTo(c, states, actions, i - 1);
      OnceStep(c, states[i - 1], actions[i - 1], states[i]);
    }
  }
}
