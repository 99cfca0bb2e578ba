/**
 Where rows and their statuses come from: every row and every batch is what the call that made it asked
 for, each status has its causes, and a device whose task stops running is free again.
 */
module TaskOrigins {
  import opened Prelude
  import opened TaskQueues
  import opened BatchTotals
  import opened TaskEffects
  import opened TaskRuns
  import opened TaskInvariants
  import opened TaskTiming
  import opened TaskTheorems
  import opened TaskTimeouts

  // ── rows are what was asked for ──

  /** What is written once, when the row is made. */
  predicate SameOrigin(row: Task, row': Task) {
    && row'.org == row.org && row'.device == row.device && row'.version == row.version
    && row'.priority == row.priority && row'.batch == row.batch && row'.timeout == row.timeout
    && row'.createdAt == row.createdAt
  }

  predicate AsAsked(row: Task, r: Request, now: Time) {
    && r.scriptFound && r.deviceFound && r.version == Some(row.version)
    && row.org == r.org && row.device == r.device && row.priority == r.priority
    && row.batch == r.batch && row.timeout == r.timeout && row.createdAt == now
  }

  /** A change of status is stamped with its time, and so is a start. */
  predicate Stamped(row: Task, row': Task, now: Time) {
    row'.status != row.status ==>
      && row'.updatedAt == now
      && row'.startedAt == if row'.status == Status.Running then Some(now) else row.startedAt
  }

  predicate OriginKept(s: State, s': State, t: TaskId)
    requires t in s.store.tasks
  {
    && t in s'.store.tasks
    && SameOrigin(s.store.tasks[t], s'.store.tasks[t]) && Stamped(s.store.tasks[t], s'.store.tasks[t], s.now)
  }

  lemma CreateKeepsOrigin(c: Config, s: State, a: Action, s': State, t: TaskId)
    requires Step(c, s, a, s') && t in s.store.tasks && a.Create?
    ensures OriginKept(s, s', t)
  {
  }

  lemma NewRowIsAsAsked(c: Config, s: State, a: Action, s': State, t: TaskId)
    requires Step(c, s, a, s') && t !in s.store.tasks && t in s'.store.tasks && a.Create?
    ensures t == a.request.task && AsAsked(s'.store.tasks[t], a.request, s.now)
  {
  }

  lemma DispatchKeepsOrigin(c: Config, s: State, a: Action, s': State, t: TaskId)
    requires Step(c, s, a, s') && t in s.store.tasks && (a.Pop? || a.Finish?)
    ensures OriginKept(s, s', t)
  {
  }

  lemma SweepsKeepOrigin(c: Config, s: State, a: Action, s': State, t: TaskId)
    requires Step(c, s, a, s') && t in s.store.tasks && (a.Tick? || a.CancelBatch?)
    ensures OriginKept(s, s', t)
  {
  }

  lemma ReportKeepsOrigin(c: Config, s: State, a: Action, s': State, t: TaskId)
    requires Step(c, s, a, s') && t in s.store.tasks && a.Result?
    ensures OriginKept(s, s', t)
  {
  }

  lemma CancelKeepsOrigin(c: Config, s: State, a: Action, s': State, t: TaskId)
    requires Step(c, s, a, s') && t in s.store.tasks && a.Cancel?
    ensures OriginKept(s, s', t)
  {
  }

  lemma StopKeepsOrigin(c: Config, s: State, a: Action, s': State, t: TaskId)
    requires Step(c, s, a, s') && t in s.store.tasks && a.ForceStop?
    ensures OriginKept(s, s', t)
  {
  }

  lemma OthersKeepOrigin(c: Config, s: State, a: Action, s': State, t: TaskId)
    requires Step(c, s, a, s') && t in s.store.tasks && (a.Advance? || a.Launch? || a.EndLaunch?)
    ensures OriginKept(s, s', t)
  {
  }

  lemma OnlyCreateAddsRows(c: Config, s: State, a: Action, s': State)
    requires Step(c, s, a, s') && !a.Create?
    ensures s'.store.tasks.Keys == s.store.tasks.Keys
  {
  }

  /** Old rows keep what they were made with, changes of status are stamped, and new rows are as asked. */
  lemma OriginStep(c: Config, s: State, a: Action, s': State, t: TaskId)
    requires Step(c, s, a, s')
    ensures t in s.store.tasks ==> OriginKept(s, s', t)
    ensures t in s'.store.tasks && t !in s.store.tasks ==>
              a.Create? && a.request.task == t && AsAsked(s'.store.tasks[t], a.request, s.now)
  {
    hide Step, OriginKept, AsAsked;
    if t !in s.store.tasks {
      if t in s'.store.tasks {
        if !a.Create? {
          OnlyCreateAddsRows(c, s, a, s');
          assert false;
        }
        NewRowIsAsAsked(c, s, a, s', t);
      }
    } else {
      match a {
        case Create(_) => CreateKeepsOrigin(c, s, a, s', t);
        case Pop(_) => DispatchKeepsOrigin(c, s, a, s', t);
        case Finish(_, _) => DispatchKeepsOrigin(c, s, a, s', t);
        case Tick => SweepsKeepOrigin(c, s, a, s', t);
        case CancelBatch(_, _) => SweepsKeepOrigin(c, s, a, s', t);
        case Result(_, _) => ReportKeepsOrigin(c, s, a, s', t);
        case Cancel(_, _) => CancelKeepsOrigin(c, s, a, s', t);
        case ForceStop(_, _) => StopKeepsOrigin(c, s, a, s', t);
        case _ => OthersKeepOrigin(c, s, a, s', t);
      }
    }
  }

  ghost predicate OriginsKept(s: State, s': State) {
    forall t | t in s.store.tasks :: OriginKept(s, s', t)
  }

  lemma OriginsStep(c: Config, s: State, a: Action, s': State)
    requires Step(c, s, a, s')
    ensures OriginsKept(s, s')
  {
    hide Step, OriginKept;
    forall t | t in s.store.tasks ensures OriginKept(s, s', t) {
      OriginStep(c, s, a, s', t);
    }
  }

  lemma SameAsAsked(row: Task, row': Task, r: Request, now: Time)
    requires SameOrigin(row, row') && AsAsked(row, r, now)
    ensures AsAsked(row', r, now)
  {
  }

  lemma KeptIsSame(s: State, s': State, t: TaskId)
    requires t in s.store.tasks && OriginKept(s, s', t)
    ensures t in s'.store.tasks && SameOrigin(s.store.tasks[t], s'.store.tasks[t])
  {
  }

  lemma NoRowsAtFirst(s: State)
    requires Init(s)
    ensures s.store.tasks == map[] && s.store.batches == map[]
  {
  }

  /**
   Every row of every run was made by a call of create_task with a known script and device, and has for
   ever the organisation, device, version, priority, batch and timeout that call asked for.
   */
  lemma {:induction false} RowsAreAsAsked(c: Config, states: seq<State>, actions: seq<Action>, i: nat, t: TaskId)
    returns (k: nat)
    requires Run(c, states, actions) && i < |states| && t in states[i].store.tasks
    ensures k < i && k < |actions| && actions[k].Create? && actions[k].request.task == t
    ensures AsAsked(states[i].store.tasks[t], actions[k].request, states[k].now)
  {
    hide *;
    if i == 0 {
      StartsInit(c, states, actions);
      NoRowsAtFirst(states[0]);
      assert false;
    } else {
      StepAt(c, states, actions, i);
      OriginStep(c, states[i - 1], actions[i - 1], states[i], t);
      if t in states[i - 1].store.tasks {
        k := RowsAreAsAsked(c, states, actions, i - 1, t);
        KeptIsSame(states[i - 1], states[i], t);
        SameAsAsked(states[i - 1].store.tasks[t], states[i].store.tasks[t], actions[k].request, states[k].now);
      } else {
        k := i - 1;
      }
    }
  }

  // ── when a call makes a row ──

  /** Script, version and device are there, and the duplicate found is off line or a day without change. */
  predicate Welcome(s: State, r: Request) {
    && r.scriptFound && r.version.Some? && r.deviceFound
    && (r.duplicate.Some? && r.duplicate.value in s.store.tasks ==>
          r.online == Some(false) || s.store.tasks[r.duplicate.value].updatedAt < s.now - 86400.0)
  }

  /** A call makes its row, QUEUED and in its queue, exactly when it is welcome; else nothing changes. */
  lemma CreatesExactly(c: Config, s: State, a: Action, s': State)
    requires Step(c, s, a, s') && a.Create?
    ensures a.request.task in s'.store.tasks <==> Welcome(s, a.request)
    ensures Welcome(s, a.request) ==>
              var r := a.request;
              && s'.store.tasks[r.task].status == Status.Queued && s'.store.tasks[r.task].updatedAt == s.now
              && s'.store.tasks[r.task].startedAt.None?
              && s'.store.zset.Keys == s.store.zset.Keys + {Slot(r.org, r.device, r.task)}
    ensures !Welcome(s, a.request) ==> s'.store == s.store
    ensures s'.store.locks == s.store.locks && s'.store.batches == s.store.batches
  {
  }

  // ── batches are what was launched ──

  predicate SameBatchOrigin(batch: Batch, batch': Batch) {
    batch'.org == batch.org && batch'.total == batch.total
  }

  lemma BatchOriginStep(c: Config, s: State, a: Action, s': State, b: BatchId)
    requires Step(c, s, a, s') && b in s'.store.batches
    ensures b in s.store.batches ==> SameBatchOrigin(s.store.batches[b], s'.store.batches[b])
    ensures b !in s.store.batches ==>
              && a.Launch? && a.batch == b
              && s'.store.batches[b].org == a.org && s'.store.batches[b].total == |a.devices|
              && s'.store.batches[b].succeeded == 0 && s'.store.batches[b].failed == 0
              && s'.store.batches[b].status == BatchStatus.Running
  {
  }

  /** Every batch of every run was launched, and its total is for ever the number of devices asked for. */
  lemma {:induction false} BatchesAreAsLaunched(c: Config, states: seq<State>, actions: seq<Action>, i: nat, b: BatchId)
    returns (k: nat)
    requires Run(c, states, actions) && i < |states| && b in states[i].store.batches
    ensures k < i && k < |actions| && actions[k].Launch? && actions[k].batch == b
    ensures states[i].store.batches[b].org == actions[k].org
    ensures states[i].store.batches[b].total == |actions[k].devices|
  {
    hide *;
    if i == 0 {
      StartsInit(c, states, actions);
      NoRowsAtFirst(states[0]);
      assert false;
    } else {
      StepAt(c, states, actions, i);
      BatchOriginStep(c, states[i - 1], actions[i - 1], states[i], b);
      if b in states[i - 1].store.batches {
        k := BatchesAreAsLaunched(c, states, actions, i - 1, b);
        SameTotal(states[i - 1].store.batches[b], states[i].store.batches[b]);
      } else {
        k := i - 1;
      }
    }
  }

  lemma SameTotal(batch: Batch, batch': Batch)
    requires SameBatchOrigin(batch, batch')
    ensures batch'.org == batch.org && batch'.total == batch.total
  {
  }

  // ── each status has its causes ──

  /** The step gives `t` this status, which it did not have. */
  predicate Becomes(s: State, s': State, t: TaskId, status: Status) {
    && t in s.store.tasks && s.store.tasks[t].status != status
    && t in s'.store.tasks && s'.store.tasks[t].status == status
  }

  predicate NotClosed(row: Task) {
    row.status in {Status.Queued, Status.Assigned, Status.Running, Status.Timeout}
  }

  /** Pending for more than an hour, or running for 300 s longer than its timeout. */
  predicate Overdue(row: Task, now: Time) {
    || (row.status == Status.Queued && row.createdAt + 3600.0 < now)
    || (row.status == Status.Running && row.startedAt.Some? && row.startedAt.value + row.timeout + 300.0 <= now)
  }

  predicate GivesWayTo(s: State, r: Request, t: TaskId) {
    && t in s.store.tasks && s.store.tasks[t].status in {Status.Queued, Status.Running}
    && r.duplicate == Some(t) && Welcome(s, r)
  }

  lemma ChangesByCreate(c: Config, s: State, a: Action, s': State, t: TaskId)
    requires Inv(c, s) && Step(c, s, a, s') && t in s.store.tasks && a.Create?
    ensures Becomes(s, s', t, Status.Timeout) <==> GivesWayTo(s, a.request, t)
    ensures t in s'.store.tasks && (!GivesWayTo(s, a.request, t) ==> s'.store.tasks[t] == s.store.tasks[t])
  {
    hide Slots, InFlight, Histories, Batched;
    assert RowOk(c, s.store.tasks[t], s.now);
  }

  lemma ChangesByTick(c: Config, s: State, s': State, t: TaskId)
    requires Inv(c, s) && Step(c, s, Tick, s') && t in s.store.tasks
    ensures Becomes(s, s', t, Status.Timeout) <==> Overdue(s.store.tasks[t], s.now)
    ensures t in s'.store.tasks && (!Overdue(s.store.tasks[t], s.now) ==> s'.store.tasks[t] == s.store.tasks[t])
  {
    hide Slots, InFlight, Histories, Batched;
    assert RowOk(c, s.store.tasks[t], s.now);
  }

  lemma ChangesByFinish(c: Config, s: State, a: Action, s': State, t: TaskId)
    requires Inv(c, s) && Step(c, s, a, s') && t in s.store.tasks && a.Finish?
    ensures Becomes(s, s', t, Status.Running) <==> a.outcome.Delivered? && InHand(s, t)
    ensures Becomes(s, s', t, Status.Failed) <==> a.outcome.NoVersion? && InHand(s, t)
    ensures t in s'.store.tasks && (!InHand(s, t) ==> s'.store.tasks[t] == s.store.tasks[t])
    ensures a.outcome.NotDelivered? || a.outcome.Raised? ==> s'.store.tasks[t] == s.store.tasks[t]
  {
    hide Rows, Slots, Histories, Batched;
  }

  lemma ChangesByResult(c: Config, s: State, a: Action, s': State, t: TaskId)
    requires Step(c, s, a, s') && t in s.store.tasks && a.Result?
    ensures Becomes(s, s', t, Status.Completed) <==> a.task == t && a.success && NotClosed(s.store.tasks[t])
    ensures Becomes(s, s', t, Status.Failed) <==> a.task == t && !a.success && NotClosed(s.store.tasks[t])
    ensures t in s'.store.tasks
    ensures a.task != t || !NotClosed(s.store.tasks[t]) ==>
              s'.store.tasks[t] == s.store.tasks[t].(updatedAt := s'.store.tasks[t].updatedAt)
  {
  }

  lemma ChangesByRest(c: Config, s: State, a: Action, s': State, t: TaskId)
    requires Step(c, s, a, s') && t in s.store.tasks
    requires a.Advance? || a.Pop? || a.Launch? || a.EndLaunch?
    ensures t in s'.store.tasks && s'.store.tasks[t] == s.store.tasks[t]
  {
  }

  lemma ChangesByCancel(c: Config, s: State, a: Action, s': State, t: TaskId)
    requires Step(c, s, a, s') && t in s.store.tasks && (a.Cancel? || a.ForceStop? || a.CancelBatch?)
    ensures t in s'.store.tasks
    ensures s'.store.tasks[t].status == s.store.tasks[t].status || s'.store.tasks[t].status == Status.Cancelled
  {
  }

  /** In every reachable state, the exact cause of each change of status but a cancellation. */
  lemma StatusesHaveCauses(c: Config, s: State, a: Action, s': State, t: TaskId)
    requires Reachable(c, s) && Step(c, s, a, s') && t in s.store.tasks
    ensures Becomes(s, s', t, Status.Completed) <==>
              a.Result? && a.task == t && a.success && NotClosed(s.store.tasks[t])
    ensures Becomes(s, s', t, Status.Failed) <==>
              || (a.Result? && a.task == t && !a.success && NotClosed(s.store.tasks[t]))
              || (a.Finish? && a.outcome.NoVersion? && InHand(s, t))
    ensures Becomes(s, s', t, Status.Running) <==> a.Finish? && a.outcome.Delivered? && InHand(s, t)
    ensures Becomes(s, s', t, Status.Timeout) <==>
              || (a.Tick? && Overdue(s.store.tasks[t], s.now))
              || (a.Create? && GivesWayTo(s, a.request, t))
    ensures !Becomes(s, s', t, Status.Queued)
  {
    ReachableInv(c, s);
    hide Inv, Deadlines, Reachable, Locked, Step;
    match a {
      case Create(_) => ChangesByCreate(c, s, a, s', t);
      case Tick => ChangesByTick(c, s, s', t);
      case Finish(_, _) => ChangesByFinish(c, s, a, s', t);
      case Result(_, _) => ChangesByResult(c, s, a, s', t);
      case Cancel(_, _) => ChangesByCancel(c, s, a, s', t);
      case ForceStop(_, _) => ChangesByCancel(c, s, a, s', t);
      case CancelBatch(_, _) => ChangesByCancel(c, s, a, s', t);
      case _ => ChangesByRest(c, s, a, s', t);
    }
  }

  // ── a device whose task stops running is free ──

  /** The device of `t` is blocked by a live lock of `t`. */
  predicate Blocked(s: State, t: TaskId)
    requires t in s.store.tasks
  {
    var d := s.store.tasks[t].device;
    Live(s.store.locks, d, s.now) && s.store.locks[d].owner == t
  }

  predicate StopsRunning(s: State, s': State, t: TaskId) {
    && t in s.store.tasks && s.store.tasks[t].status == Status.Running
    && t in s'.store.tasks && s'.store.tasks[t].status != Status.Running
  }

  lemma ReportFrees(c: Config, s: State, a: Action, s': State, t: TaskId)
    requires Step(c, s, a, s') && (a.Result? || a.ForceStop?) && StopsRunning(s, s', t)
    ensures !Blocked(s', t)
  {
  }

  /** A cycle of the watchdog leaves no lock at all on the device of a task it timed out. */
  lemma TickFrees(c: Config, s: State, s': State, t: TaskId)
    requires Step(c, s, Tick, s') && StopsRunning(s, s', t)
    ensures s.store.tasks[t].device !in s'.store.locks && s'.store.tasks[t].device == s.store.tasks[t].device
    ensures s'.store.tasks[t].status == Status.Timeout
  {
  }

  lemma OthersStopNone(c: Config, s: State, a: Action, s': State, t: TaskId)
    requires Inv(c, s) && Step(c, s, a, s')
    requires !a.Result? && !a.ForceStop? && !a.Tick? && !a.Create?
    ensures !StopsRunning(s, s', t)
  {
    hide Rows, Slots, Histories, Batched;
  }

  /**
   Whenever a task stops running, its device is no longer blocked by it: a report, a forced stop and
   the watchdog free it. Only giving way to a duplicate leaves the lock as it is.
   */
  lemma StoppedRunnersFreeTheDevice(c: Config, s: State, a: Action, s': State, t: TaskId)
    requires Reachable(c, s) && Step(c, s, a, s') && StopsRunning(s, s', t)
    ensures !a.Create? ==> !Blocked(s', t)
    ensures a.Create? ==> (Blocked(s', t) <==> Blocked(s, t))
    ensures a.Tick? ==> s.store.tasks[t].device !in s'.store.locks
  {
    ReachableInv(c, s);
    if a.Create? {
      CreatesExactly(c, s, a, s');
      OriginStep(c, s, a, s', t);
    } else if a.Tick? {
      TickFrees(c, s, s', t);
    } else if a.Result? || a.ForceStop? {
      hide Inv, Step;
      ReportFrees(c, s, a, s', t);
    } else {
      OthersStopNone(c, s, a, s', t);
    }
  }
}
