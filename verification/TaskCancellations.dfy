/**
 What a cancellation is worth: which steps cancel a task, and that a cancelled task never comes back,
 except when the dispatcher held it at that moment.
 */
module TaskCancellations {
  import opened TaskQueues
  import opened BatchTotals
  import opened TaskEffects
  import opened TaskRuns
  import opened TaskInvariants
  import opened TaskTiming
  import opened TaskTheorems
  import opened TaskTimeouts

  predicate Cancelled(s: State, t: TaskId) {
    t in s.store.tasks && s.store.tasks[t].status == Status.Cancelled
  }

  /** Cancelled, in no queue, and not in the hands of the dispatcher. */
  ghost predicate Dropped(s: State, t: TaskId) {
    Cancelled(s, t) && !InHand(s, t) && forall slot | slot in s.store.zset :: slot.task != t
  }

  // ── a dropped task stays dropped ──

  lemma DroppedDispatch(c: Config, s: State, a: Action, s': State, t: TaskId)
    requires Dropped(s, t) && Step(c, s, a, s') && (a.Pop? || a.Finish?)
    ensures Dropped(s', t)
  {
  }

  lemma DroppedCreate(c: Config, s: State, a: Action, s': State, t: TaskId)
    requires Dropped(s, t) && Step(c, s, a, s') && a.Create?
    ensures Dropped(s', t)
  {
  }

  lemma DroppedOther(c: Config, s: State, a: Action, s': State, t: TaskId)
    requires Dropped(s, t) && Step(c, s, a, s') && !a.Create? && !a.Pop? && !a.Finish?
    ensures Dropped(s', t)
  {
  }

  lemma DroppedStep(c: Config, s: State, a: Action, s': State, t: TaskId)
    requires Dropped(s, t) && Step(c, s, a, s')
    ensures Dropped(s', t)
  {
    hide Dropped, Step;
    if a.Pop? || a.Finish? {
      DroppedDispatch(c, s, a, s', t);
    } else if a.Create? {
      DroppedCreate(c, s, a, s', t);
    } else {
      DroppedOther(c, s, a, s', t);
    }
  }

  lemma DroppedStays(c: Config, s: State, s': State, t: TaskId)
    requires Dropped(s, t) && Leads(c, s, s')
    ensures Dropped(s', t)
  {
    hide Step, Dropped;
    var states: seq<State>, actions: seq<Action> :|
      Steps(c, states, actions) && states[0] == s && states[|states| - 1] == s';
    for n := 0 to |actions|
      invariant Dropped(states[n], t)
    {
      assert Step(c, states[n], actions[n], states[n + 1]);
      DroppedStep(c, states[n], actions[n], states[n + 1], t);
    }
  }

  // ── what cancels, and what for good ──

  /** The step turns `t` into CANCELLED. */
  predicate Cancels(s: State, s': State, t: TaskId) {
    t in s.store.tasks && s.store.tasks[t].status != Status.Cancelled && Cancelled(s', t)
  }

  /** A request to cancel `t` itself, to stop it, or to cancel its batch, from its own organisation. */
  predicate Asks(s: State, a: Action, t: TaskId)
    requires t in s.store.tasks
  {
    var row := s.store.tasks[t];
    match a
    case Cancel(task, org) => task == t && org == row.org && row.status == Status.Queued
    case ForceStop(task, org) => task == t && org == row.org && row.status in {Status.Queued, Status.Running}
    case CancelBatch(b, org) =>
      && row.batch.Some? && row.batch.value == b && org == row.org && row.status == Status.Queued
      && b in s.store.batches
      && s.store.batches[b].status != BatchStatus.Completed && s.store.batches[b].status != BatchStatus.Cancelled
    case _ => false
  }

  lemma CancelledRows(c: Config, s: State, a: Action, s': State, t: TaskId)
    requires Inv(c, s) && Step(c, s, a, s') && t in s.store.tasks
    requires a.Cancel? || a.ForceStop? || a.CancelBatch?
    ensures Cancels(s, s', t) <==> Asks(s, a, t)
    ensures !Asks(s, a, t) ==> t in s'.store.tasks && s'.store.tasks[t] == s.store.tasks[t]
  {
    hide Slots, InFlight, Histories;
  }

  lemma NotCancelled(c: Config, s: State, a: Action, s': State, t: TaskId)
    requires Step(c, s, a, s') && t in s.store.tasks
    requires !a.Cancel? && !a.ForceStop? && !a.CancelBatch?
    ensures !Cancels(s, s', t)
  {
  }

  /** In every reachable state exactly such a request cancels a task. */
  lemma CancelsExactly(c: Config, s: State, a: Action, s': State, t: TaskId)
    requires Reachable(c, s) && Step(c, s, a, s') && t in s.store.tasks
    ensures Cancels(s, s', t) <==> Asks(s, a, t)
  {
    ReachableInv(c, s);
    hide Inv, Deadlines, Reachable, Locked, Step, Cancels;
    if a.Cancel? || a.ForceStop? || a.CancelBatch? {
      CancelledRows(c, s, a, s', t);
    } else {
      NotCancelled(c, s, a, s', t);
    }
  }

  // ── which cancellations are final ──

  /** A step that cancels `t` takes it out of its queue, and leaves the task in flight alone. */
  lemma CancelledIsDropped(c: Config, s: State, a: Action, s': State, t: TaskId)
    requires Inv(c, s) && Step(c, s, a, s') && t in s.store.tasks && Asks(s, a, t)
    ensures s'.flight == s.flight && !InQueue(s', t)
    ensures !InHand(s, t) ==> Dropped(s', t)
  {
    var row := s.store.tasks[t];
    assert forall slot | slot in s.store.zset && slot.task == t :: slot == Slot(row.org, row.device, t);
    hide Rows, Slots, InFlight;
  }

  lemma NotInQueueIsDropped(c: Config, s: State, t: TaskId)
    requires Inv(c, s) && Cancelled(s, t) && !InQueue(s, t) && !InHand(s, t)
    ensures Dropped(s, t)
  {
    forall slot | slot in s.store.zset ensures slot.task != t {
      assert slot == Slot(slot.org, slot.device, slot.task);
    }
  }

  /** `t` is CANCELLED, waits nowhere and is not about to be sent, now and on every continuation. */
  ghost predicate DroppedForGood(c: Config, s: State, t: TaskId) {
    forall s' | Leads(c, s, s') :: Dropped(s', t)
  }

  lemma DroppedStaysForGood(c: Config, s: State, t: TaskId)
    requires Dropped(s, t)
    ensures DroppedForGood(c, s, t)
  {
    forall s' | Leads(c, s, s') ensures Dropped(s', t) {
      DroppedStays(c, s, s', t);
    }
  }

  /**
   In every reachable state a CANCELLED task can still run, on some continuation of the run, exactly
   when it is in its queue or in flight; otherwise it stays CANCELLED and is never handed out.
   */
  lemma CancelledIsFinalExactly(c: Config, s: State, t: TaskId)
    requires Reachable(c, s) && Cancelled(s, t)
    ensures (exists s' :: RunsLater(c, s, s', t)) <==> InQueue(s, t) || InHand(s, t)
    ensures DroppedForGood(c, s, t) <==> !InQueue(s, t) && !InHand(s, t)
  {
    if InQueue(s, t) || InHand(s, t) {
      var s' := ParkedRuns(c, s, t);
      assert Leads(c, s, s') && !Dropped(s', t);
    } else {
      ReachableInv(c, s);
      hide Inv, Deadlines, Reachable, Locked, Leads;
      NotInQueueIsDropped(c, s, t);
      DroppedStaysForGood(c, s, t);
    }
  }

  /**
   A cancellation, a forced stop and the cancellation of a batch take the task out of its queue for
   good, exactly when the dispatcher does not hold it at that moment.
   */
  lemma CancelIsForGoodExactly(c: Config, s: State, a: Action, s': State, t: TaskId)
    requires Reachable(c, s) && Step(c, s, a, s') && Cancels(s, s', t)
    ensures !InQueue(s', t)
    ensures DroppedForGood(c, s', t) <==> !InHand(s, t)
    ensures (exists s'' :: RunsLater(c, s', s'', t)) <==> InHand(s, t)
  {
    CancelsExactly(c, s, a, s', t);
    ReachableInv(c, s);
    CancelledIsDropped(c, s, a, s', t);
    StepReachable(c, s, a, s');
    CancelledIsFinalExactly(c, s', t);
  }

  // ── the batch row ──

  lemma BatchCancelRow(c: Config, s: State, a: Action, s': State, b: BatchId)
    requires Step(c, s, a, s') && b in s.store.batches && a.CancelBatch?
    ensures b in s'.store.batches && s'.store.batches[b].succeeded == s.store.batches[b].succeeded
            && s'.store.batches[b].failed == s.store.batches[b].failed
    ensures s'.store.batches[b].status ==
            if a.batch == b && a.org == s.store.batches[b].org && s.store.batches[b].status != BatchStatus.Completed
            then BatchStatus.Cancelled else s.store.batches[b].status
  {
  }

  /** A batch becomes CANCELLED exactly when its organisation cancels it before it is COMPLETED. */
  lemma BatchCancelsExactly(c: Config, s: State, a: Action, s': State, b: BatchId)
    requires Step(c, s, a, s') && b in s.store.batches && s.store.batches[b].status != BatchStatus.Cancelled
    ensures b in s'.store.batches
    ensures s'.store.batches[b].status == BatchStatus.Cancelled
       <==> a.CancelBatch? && a.batch == b && a.org == s.store.batches[b].org
            && s.store.batches[b].status != BatchStatus.Completed
  {
    if a.CancelBatch? {
      hide Step;
      BatchCancelRow(c, s, a, s', b);
    }
  }
}
