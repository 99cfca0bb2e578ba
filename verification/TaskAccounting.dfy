/** Batch counters over whole runs: what `succeeded` and `failed` count, exactly. */
module TaskAccounting {
  import opened Prelude
  import opened TaskQueues
  import opened BatchTotals
  import opened TaskEffects
  import opened TaskRuns
  import opened TaskInvariants
  import opened TaskFinality
  import opened TaskOrigins
  import Waves

  /** Tasks created in a batch. */
  ghost function TasksOf(s: State, b: BatchId): set<TaskId> {
    set t | t in s.store.tasks && s.store.tasks[t].batch == Some(b)
  }

  ghost function CompletedOf(s: State, b: BatchId): set<TaskId> {
    set t | t in s.store.tasks && s.store.tasks[t].batch == Some(b) && s.store.tasks[t].status == Status.Completed
  }

  /** Failed by an agent's report; a task failed for want of a script version was never sent. */
  ghost function FailedOf(s: State, b: BatchId): set<TaskId> {
    set t | t in s.store.tasks && s.store.tasks[t].batch == Some(b) && s.store.tasks[t].status == Status.Failed
            && t in s.sent
  }

  /** Expiries of its tasks by the watchdog. */
  ghost function ExpiredOf(s: State, b: BatchId): set<Expiry> {
    set e | e in s.expired && e.task in s.store.tasks && s.store.tasks[e.task].batch == Some(b)
  }

  /** Calls which the launcher of the batch has still to make. */
  ghost function Asks(s: State, b: BatchId): nat {
    if b in s.left then |s.left[b]| else 0
  }

  ghost predicate Balanced(s: State, b: BatchId) {
    b in s.store.batches ==>
      && s.store.batches[b].succeeded == |CompletedOf(s, b)|
      && s.store.batches[b].failed == |FailedOf(s, b)| + |ExpiredOf(s, b)|
      && Asks(s, b) + |TasksOf(s, b)| <= s.store.batches[b].total
  }

  ghost predicate Books(s: State) {
    forall b | b in s.store.batches :: Balanced(s, b)
  }

  /** As far as the counters are concerned, task `t` stands in `s'` where it stood in `s`. */
  ghost predicate SameClass(s: State, s': State, t: TaskId) {
    && (t in s.store.tasks <==> t in s'.store.tasks)
    && (t in s.store.tasks ==>
          var row, row' := s.store.tasks[t], s'.store.tasks[t];
          && row'.batch == row.batch
          && (row'.status == Status.Completed <==> row.status == Status.Completed)
          && (row'.status == Status.Failed && t in s'.sent <==> row.status == Status.Failed && t in s.sent))
  }

  /** The three sets of tasks agree outside `but`. */
  ghost predicate SameSets(s: State, s': State, b: BatchId, but: set<TaskId>) {
    && TasksOf(s', b) - but == TasksOf(s, b) - but
    && CompletedOf(s', b) - but == CompletedOf(s, b) - but
    && FailedOf(s', b) - but == FailedOf(s, b) - but
  }

  lemma SameClasses(s: State, s': State, b: BatchId, but: set<TaskId>)
    requires forall t | t !in but :: SameClass(s, s', t)
    ensures SameSets(s, s', b, but)
  {
    assert forall t | t in s'.store.tasks && t !in but ::
        SameClass(s, s', t) && t in s.store.tasks && s.store.tasks[t].batch == s'.store.tasks[t].batch;
    assert forall t | t in s.store.tasks && t !in but ::
        SameClass(s, s', t) && t in s'.store.tasks && s.store.tasks[t].batch == s'.store.tasks[t].batch;
  }

  // ── which tasks change class ──

  lemma ClassDispatch(c: Config, s: State, a: Action, s': State, t: TaskId)
    requires Inv(c, s) && Step(c, s, a, s') && (a.Pop? || a.Finish?)
    ensures SameClass(s, s', t)
  {
  }

  lemma ClassCreate(c: Config, s: State, a: Action, s': State, t: TaskId)
    requires Inv(c, s) && Step(c, s, a, s') && a.Create? && t != a.request.task
    ensures SameClass(s, s', t)
  {
  }

  lemma ClassResult(c: Config, s: State, a: Action, s': State, t: TaskId)
    requires Step(c, s, a, s') && a.Result? && t != a.task
    ensures SameClass(s, s', t)
  {
  }

  lemma ClassTick(c: Config, s: State, s': State, t: TaskId)
    requires Step(c, s, Tick, s') && t !in Stale(s.store.tasks, s.now)
    ensures SameClass(s, s', t)
  {
  }

  lemma ClassCancel(c: Config, s: State, a: Action, s': State, t: TaskId)
    requires Step(c, s, a, s') && (a.Cancel? || a.ForceStop? || a.CancelBatch?)
    ensures SameClass(s, s', t)
  {
  }

  lemma ClassRest(c: Config, s: State, a: Action, s': State, t: TaskId)
    requires Step(c, s, a, s') && (a.Advance? || a.Launch? || a.EndLaunch?)
    ensures SameClass(s, s', t)
  {
  }

  // ── the counters after each step ──

  /** Which tasks a step may move: the one it creates, reports, or the ones it expires. */
  ghost function Moved(s: State, a: Action): set<TaskId> {
    match a
    case Create(r) => {r.task}
    case Result(t, _) => {t}
    case Tick => Stale(s.store.tasks, s.now)
    case _ => {}
  }

  lemma MovedIs(s: State, a: Action)
    ensures a.Create? ==> Moved(s, a) == {a.request.task}
    ensures a.Result? ==> Moved(s, a) == {a.task}
    ensures a.Tick? ==> Moved(s, a) == Stale(s.store.tasks, s.now)
    ensures !a.Create? && !a.Result? && !a.Tick? ==> Moved(s, a) == {}
  {
  }

  lemma SetsStep(c: Config, s: State, a: Action, s': State, b: BatchId)
    requires Inv(c, s) && Step(c, s, a, s')
    ensures SameSets(s, s', b, Moved(s, a))
  {
    hide Inv, Step, SameClass, SameSets;
    forall t | t !in Moved(s, a) ensures SameClass(s, s', t) {
      match a {
        case Create(_) => ClassCreate(c, s, a, s', t);
        case Result(_, _) => ClassResult(c, s, a, s', t);
        case Tick => ClassTick(c, s, s', t);
        case Pop(_) => ClassDispatch(c, s, a, s', t);
        case Finish(_, _) => ClassDispatch(c, s, a, s', t);
        case Advance(_) => ClassRest(c, s, a, s', t);
        case Launch(_, _, _, _) => ClassRest(c, s, a, s', t);
        case EndLaunch(_) => ClassRest(c, s, a, s', t);
        case _ => ClassCancel(c, s, a, s', t);
      }
    }
    SameClasses(s, s', b, Moved(s, a));
  }

  lemma SizeBy(a: set<TaskId>, a': set<TaskId>, but: set<TaskId>)
    requires a - but == a' - but
    ensures |a'| - |a' * but| == |a| - |a * but|
  {
    assert a == (a - but) + (a * but);
    assert a' == (a' - but) + (a' * but);
    DisjointSize(a - but, a * but);
    DisjointSize(a' - but, a' * but);
  }

  /** The counters stay exact if they change by what the moved tasks contribute. */
  ghost predicate Contributes(s: State, s': State, b: BatchId, but: set<TaskId>)
    requires b in s.store.batches
  {
    && b in s'.store.batches
    && s'.store.batches[b].total == s.store.batches[b].total
    && s'.store.batches[b].succeeded - s.store.batches[b].succeeded
       == |CompletedOf(s', b) * but| - |CompletedOf(s, b) * but|
    && s'.store.batches[b].failed - s.store.batches[b].failed
       == |FailedOf(s', b) * but| - |FailedOf(s, b) * but| + |ExpiredOf(s', b)| - |ExpiredOf(s, b)|
    && Asks(s', b) - Asks(s, b) <= |TasksOf(s, b) * but| - |TasksOf(s', b) * but|
  }

  lemma Rebalanced(s: State, s': State, b: BatchId, but: set<TaskId>)
    requires b in s.store.batches && Balanced(s, b)
    requires SameSets(s, s', b, but) && Contributes(s, s', b, but)
    ensures Balanced(s', b)
  {
    SizeBy(TasksOf(s, b), TasksOf(s', b), but);
    SizeBy(CompletedOf(s, b), CompletedOf(s', b), but);
    SizeBy(FailedOf(s, b), FailedOf(s', b), but);
  }

  lemma ShareOfNone(all: set<TaskId>)
    ensures |all * {}| == 0
  {
    assert all * {} == {};
  }

  lemma ShareOfOne(all: set<TaskId>, x: TaskId)
    ensures |all * {x}| == if x in all then 1 else 0
  {
    assert all * {x} == if x in all then {x} else {};
  }

  /** A step that moves no task and leaves the counters alone. */
  lemma NothingContributes(s: State, s': State, b: BatchId)
    requires b in s.store.batches && b in s'.store.batches
    requires Asks(s', b) == Asks(s, b)
    requires s'.store.batches[b].succeeded == s.store.batches[b].succeeded
    requires s'.store.batches[b].failed == s.store.batches[b].failed
    requires s'.store.batches[b].total == s.store.batches[b].total
    requires ExpiredOf(s', b) == ExpiredOf(s, b)
    ensures Contributes(s, s', b, {})
  {
    hide TasksOf, CompletedOf, FailedOf, ExpiredOf;
    var none: set<TaskId> := {};
    forall all: set<TaskId> ensures |all * none| == 0 {
      ShareOfNone(all);
    }
  }

  /** A step that moves at most task `x`. */
  lemma OneContributes(s: State, s': State, b: BatchId, x: TaskId)
    requires b in s.store.batches && b in s'.store.batches
    requires s'.store.batches[b].total == s.store.batches[b].total
    requires s'.store.batches[b].succeeded - s.store.batches[b].succeeded
          == Share(CompletedOf(s', b), x) - Share(CompletedOf(s, b), x)
    requires s'.store.batches[b].failed - s.store.batches[b].failed
          == Share(FailedOf(s', b), x) - Share(FailedOf(s, b), x)
    requires ExpiredOf(s', b) == ExpiredOf(s, b)
    requires Asks(s', b) - Asks(s, b) <= Share(TasksOf(s, b), x) - Share(TasksOf(s', b), x)
    ensures Contributes(s, s', b, {x})
  {
    hide TasksOf, CompletedOf, FailedOf, ExpiredOf;
    ShareOfOne(TasksOf(s, b), x); ShareOfOne(TasksOf(s', b), x);
    ShareOfOne(CompletedOf(s, b), x); ShareOfOne(CompletedOf(s', b), x);
    ShareOfOne(FailedOf(s, b), x); ShareOfOne(FailedOf(s', b), x);
  }

  ghost function Share(all: set<TaskId>, x: TaskId): int { if x in all then 1 else 0 }

  /** Only a watchdog cycle adds expiries, and rows keep their batch. */
  lemma SameExpiries(c: Config, s: State, a: Action, s': State, b: BatchId)
    requires Step(c, s, a, s') && PastExpiries(s) && !a.Tick?
    ensures ExpiredOf(s', b) == ExpiredOf(s, b)
  {
    assert s'.expired == s.expired;
    RowsKeepBatch(c, s, a, s');
    hide Step;
  }

  ghost predicate SameBatch(s: State, s': State) {
    forall t | t in s.store.tasks :: t in s'.store.tasks && s'.store.tasks[t].batch == s.store.tasks[t].batch
  }

  lemma RowsKeepBatch(c: Config, s: State, a: Action, s': State)
    requires Step(c, s, a, s')
    ensures SameBatch(s, s')
  {
    hide Step;
    OriginsStep(c, s, a, s');
  }

  lemma QuietContributes(c: Config, s: State, a: Action, s': State, b: BatchId)
    requires Step(c, s, a, s') && b in s.store.batches
    requires PastExpiries(s) && !a.Create? && !a.Result? && !a.Tick? && !(a.Launch? && a.batch == b)
    ensures Contributes(s, s', b, {})
  {
    SameExpiries(c, s, a, s', b);
    NothingContributes(s, s', b);
  }

  /** How one call of the launcher changes one row, one batch and its plan. */
  lemma CreateEffect(c: Config, s: State, a: Action, s': State, b: BatchId)
    requires Inv(c, s) && Step(c, s, a, s') && b in s.store.batches && a.Create?
    ensures var x := a.request.task;
            && x !in s.store.tasks && x !in s.sent
            && (x in s'.store.tasks ==>
                  s'.store.tasks[x].batch == a.request.batch && s'.store.tasks[x].status == Status.Queued)
    ensures s'.sent == s.sent && s'.expired == s.expired && s'.store.batches == s.store.batches
    ensures Asks(s, b) - Asks(s', b) == if a.request.batch == Some(b) then 1 else 0
  {
  }

  lemma CreateContributes(c: Config, s: State, a: Action, s': State, b: BatchId)
    requires Inv(c, s) && PastExpiries(s) && Step(c, s, a, s') && b in s.store.batches && a.Create?
    ensures Contributes(s, s', b, {a.request.task})
  {
    CreateEffect(c, s, a, s', b);
    SameExpiries(c, s, a, s', b);
    hide Inv, PastExpiries, Step, Contributes, Asks, ExpiredOf;
    OneContributes(s, s', b, a.request.task);
  }

  /** How one report changes one row and one batch. */
  lemma ReportEffect(c: Config, s: State, a: Action, s': State, b: BatchId)
    requires Inv(c, s) && Step(c, s, a, s') && b in s.store.batches && a.Result? && a.task in s.store.tasks
    ensures a.task in s.sent && s'.sent == s.sent && s'.expired == s.expired && s'.left == s.left
    ensures a.task in s'.store.tasks && b in s'.store.batches
    ensures var row, row' := s.store.tasks[a.task], s'.store.tasks[a.task];
            var b0, b1 := s.store.batches[b], s'.store.batches[b];
            var counts := row.batch == Some(b) && !row.Final();
            && row'.batch == row.batch
            && row'.status == (if row.Final() then row.status
                               else if a.success then Status.Completed else Status.Failed)
            && b1.total == b0.total
            && b1.succeeded == b0.succeeded + (if counts && a.success then 1 else 0)
            && b1.failed == b0.failed + (if counts && !a.success then 1 else 0)
  {
  }

  lemma ResultContributes(c: Config, s: State, a: Action, s': State, b: BatchId)
    requires Inv(c, s) && PastExpiries(s) && Step(c, s, a, s') && b in s.store.batches && a.Result?
    ensures Contributes(s, s', b, {a.task})
  {
    SameExpiries(c, s, a, s', b);
    if a.task in s.store.tasks {
      ReportEffect(c, s, a, s', b);
    }
    hide Inv, PastExpiries, Contributes, ExpiredOf;
    OneContributes(s, s', b, a.task);
  }

  /** How one watchdog cycle changes the rows it expires and one batch. */
  lemma SweepEffect(c: Config, s: State, s': State, b: BatchId)
    requires Inv(c, s) && Step(c, s, Tick, s') && b in s.store.batches
    ensures var stale := Stale(s.store.tasks, s.now);
            && (forall t | t in stale ::
                  && t in s.store.tasks && t in s'.store.tasks
                  && s.store.tasks[t].Open() && s'.store.tasks[t].status == Status.Timeout
                  && s'.store.tasks[t].batch == s.store.tasks[t].batch)
            && s'.expired == s.expired + Expiries(stale, s.now) && s'.left == s.left && b in s'.store.batches
            && s'.store.batches[b].total == s.store.batches[b].total
            && s'.store.batches[b].succeeded == s.store.batches[b].succeeded
            && s'.store.batches[b].failed == s.store.batches[b].failed + |InBatch(s.store.tasks, stale, b)|
  {
  }

  lemma SweepCounts(c: Config, s: State, s': State, b: BatchId)
    requires Inv(c, s) && Step(c, s, Tick, s') && b in s.store.batches
    ensures b in s'.store.batches && s'.left == s.left
    ensures s'.store.batches[b].total == s.store.batches[b].total
    ensures s'.store.batches[b].succeeded == s.store.batches[b].succeeded
    ensures s'.store.batches[b].failed
         == s.store.batches[b].failed + |InBatch(s.store.tasks, Stale(s.store.tasks, s.now), b)|
  {
    hide *;
    SweepEffect(c, s, s', b);
  }

  /** What is expired now was not expired before at this time. */
  lemma NewExpiries(c: Config, s: State)
    requires Inv(c, s) && PastExpiries(s)
    ensures Expiries(Stale(s.store.tasks, s.now), s.now) !! s.expired
  {
    forall t | t in Stale(s.store.tasks, s.now) ensures Expiry.Expiry(t, s.now) !in s.expired {
      assert t in s.store.tasks && RowOk(c, s.store.tasks[t], s.now);
    }
  }

  lemma ExpiriesSize(some: set<TaskId>, at: Time)
    ensures |Expiries(some, at)| == |some|
    decreases some
  {
    if some == {} {
      assert Expiries(some, at) == {};
    } else {
      var x :| x in some;
      ExpiriesSize(some - {x}, at);
      assert Expiries(some, at) == Expiries(some - {x}, at) + {Expiry.Expiry(x, at)};
    }
  }

  /** The batch gains one expiry for each of its tasks that the cycle expires. */
  lemma SweepExpiries(c: Config, s: State, s': State, b: BatchId)
    requires Inv(c, s) && PastExpiries(s) && Step(c, s, Tick, s') && b in s.store.batches
    ensures |ExpiredOf(s', b)| == |ExpiredOf(s, b)| + |InBatch(s.store.tasks, Stale(s.store.tasks, s.now), b)|
  {
    var stale := Stale(s.store.tasks, s.now);
    var mine := InBatch(s.store.tasks, stale, b);
    SweepEffect(c, s, s', b);
    NewExpiries(c, s);
    RowsKeepBatch(c, s, Tick, s');
    hide Inv, Step, Stale;
    assert ExpiredOf(s', b) == ExpiredOf(s, b) + Expiries(mine, s.now);
    assert Expiries(mine, s.now) <= Expiries(stale, s.now);
    DisjointSize(ExpiredOf(s, b), Expiries(mine, s.now));
    ExpiriesSize(mine, s.now);
  }

  lemma SweepShares(c: Config, s: State, s': State, b: BatchId)
    requires Inv(c, s) && Step(c, s, Tick, s') && b in s.store.batches
    ensures TasksOf(s', b) * Stale(s.store.tasks, s.now) == TasksOf(s, b) * Stale(s.store.tasks, s.now)
  {
    SweepEffect(c, s, s', b);
    hide Inv, Step, Stale;
  }

  lemma SweepClosesNone(c: Config, s: State, s': State, b: BatchId)
    requires Inv(c, s) && Step(c, s, Tick, s') && b in s.store.batches
    ensures var stale := Stale(s.store.tasks, s.now);
            && |CompletedOf(s', b) * stale| == |CompletedOf(s, b) * stale|
            && |FailedOf(s', b) * stale| == |FailedOf(s, b) * stale|
  {
    var stale := Stale(s.store.tasks, s.now);
    SweepEffect(c, s, s', b);
    hide Inv, Step, Stale, InBatch;
    assert forall t | t in stale ::
        t !in CompletedOf(s, b) && t !in CompletedOf(s', b) && t !in FailedOf(s, b) && t !in FailedOf(s', b);
    hide CompletedOf, FailedOf;
    ShareNothing(CompletedOf(s, b), stale);
    ShareNothing(CompletedOf(s', b), stale);
    ShareNothing(FailedOf(s, b), stale);
    ShareNothing(FailedOf(s', b), stale);
  }

  lemma ShareNothing(all: set<TaskId>, some: set<TaskId>)
    requires forall t | t in some :: t !in all
    ensures |all * some| == 0
  {
    assert all * some == {};
  }

  lemma TickContributes(c: Config, s: State, s': State, b: BatchId)
    requires Inv(c, s) && PastExpiries(s) && Step(c, s, Tick, s') && b in s.store.batches
    ensures Contributes(s, s', b, Stale(s.store.tasks, s.now))
  {
    hide Inv, PastExpiries, Step, Stale, TasksOf, CompletedOf, FailedOf, ExpiredOf, InBatch, Expiries;
    SweepCounts(c, s, s', b);
    SweepShares(c, s, s', b);
    SweepClosesNone(c, s, s', b);
    SweepExpiries(c, s, s', b);
  }

  lemma LaunchBalances(c: Config, s: State, a: Action, s': State)
    requires Inv(c, s) && PastExpiries(s) && Step(c, s, a, s') && a.Launch?
    ensures Balanced(s', a.batch)
  {
    var b := a.batch;
    Waves.PlanFits(a.devices, a.plan);
    assert TasksOf(s', b) == {} && CompletedOf(s', b) == {} && FailedOf(s', b) == {} && ExpiredOf(s', b) == {};
  }

  lemma NewBatches(c: Config, s: State, a: Action, s': State)
    requires Step(c, s, a, s')
    ensures s'.store.batches.Keys == s.store.batches.Keys + (if a.Launch? then {a.batch} else {})
  {
  }

  lemma BooksStep(c: Config, s: State, a: Action, s': State, b: BatchId)
    requires Inv(c, s) && PastExpiries(s) && Books(s) && Step(c, s, a, s') && b in s'.store.batches
    ensures Balanced(s', b)
  {
    NewBatches(c, s, a, s');
    assert b in s.store.batches ==> Balanced(s, b);
    hide Inv, PastExpiries, Step, Contributes, SameSets, Balanced, Books, Moved;
    if b in s.store.batches {
      match a {
        case Create(_) => CreateContributes(c, s, a, s', b);
        case Result(_, _) => ResultContributes(c, s, a, s', b);
        case Tick => TickContributes(c, s, s', b);
        case _ => QuietContributes(c, s, a, s', b);
      }
      assert Contributes(s, s', b, Moved(s, a)) by {
        MovedIs(s, a);
      }
      SetsStep(c, s, a, s', b);
      Rebalanced(s, s', b, Moved(s, a));
    } else {
      LaunchBalances(c, s, a, s');
    }
  }

  lemma BooksNext(c: Config, s: State, a: Action, s': State)
    requires Inv(c, s) && PastExpiries(s) && Books(s) && Step(c, s, a, s')
    ensures Books(s')
  {
    forall b | b in s'.store.batches ensures Balanced(s', b) {
      hide *;
      BooksStep(c, s, a, s', b);
    }
  }

  lemma BooksInit(s: State)
    requires Init(s)
    ensures Books(s)
  {
  }

  lemma {:induction false} BooksRun(c: Config, states: seq<State>, actions: seq<Action>, i: nat)
    requires Run(c, states, actions) && i < |states|
    ensures Books(states[i])
  {
    hide *;
    if i == 0 {
      StartsInit(c, states, actions);
      BooksInit(states[0]);
    } else {
      StepAt(c, states, actions, i);
      BooksRun(c, states, actions, i - 1);
      InvRun(c, states, actions, i - 1);
      PastRun(c, states, actions, i - 1);
      BooksNext(c, states[i - 1], actions[i - 1], states[i]);
    }
  }

  /**
   Exact accounting in every reachable state: `succeeded` is the number of COMPLETED tasks of the
   batch, `failed` the number FAILED by a report plus the number of expiries by the watchdog.
   */
  lemma CountersAreExact(c: Config, s: State, b: BatchId)
    requires Reachable(c, s) && b in s.store.batches
    ensures s.store.batches[b].succeeded == |CompletedOf(s, b)|
    ensures s.store.batches[b].failed == |FailedOf(s, b)| + |ExpiredOf(s, b)|
    ensures |TasksOf(s, b)| <= s.store.batches[b].total
  {
    hide Inv, Step;
    var states, actions :| Run(c, states, actions) && states[|states| - 1] == s;
    BooksRun(c, states, actions, |states| - 1);
  }

  /** Tasks ever expired, and those of them that a report has closed after all. */
  ghost function ExpiredTasksOf(s: State, b: BatchId): set<TaskId> {
    set e | e in ExpiredOf(s, b) :: e.task
  }

  ghost function LateOf(s: State, b: BatchId): set<TaskId> {
    ExpiredTasksOf(s, b) * (CompletedOf(s, b) + FailedOf(s, b))
  }

  /** Expiries of a task beyond its first. */
  ghost function Repeated(s: State, b: BatchId): int {
    |ExpiredOf(s, b)| - |ExpiredTasksOf(s, b)|
  }

  /**
   In every reachable state the counters exceed the tasks they stand for by exactly the late reports
   and the repeated expiries.
   */
  lemma OvercountExactly(c: Config, s: State, b: BatchId)
    requires Reachable(c, s) && b in s.store.batches
    ensures var counted := CompletedOf(s, b) + FailedOf(s, b) + ExpiredTasksOf(s, b);
            && s.store.batches[b].succeeded + s.store.batches[b].failed == |counted| + |LateOf(s, b)| + Repeated(s, b)
            && counted <= TasksOf(s, b) && |TasksOf(s, b)| <= s.store.batches[b].total
    ensures s.store.batches[b].succeeded + s.store.batches[b].failed
         <= s.store.batches[b].total + |LateOf(s, b)| + Repeated(s, b)
  {
    CountersAreExact(c, s, b);
    hide Reachable;
    var closed := CompletedOf(s, b) + FailedOf(s, b);
    DisjointSize(CompletedOf(s, b), FailedOf(s, b));
    UnionSize(closed, ExpiredTasksOf(s, b));
    assert closed * ExpiredTasksOf(s, b) == LateOf(s, b);
    SubsetSize(closed + ExpiredTasksOf(s, b), TasksOf(s, b));
  }

  lemma TasksOfExpiries(some: set<Expiry>)
    requires forall e, f | e in some && f in some && e.task == f.task :: e == f
    ensures |set e | e in some :: e.task| == |some|
    decreases some
  {
    if some == {} {
      assert (set e | e in some :: e.task) == {};
    } else {
      var x :| x in some;
      var rest := some - {x};
      TasksOfExpiries(rest);
      assert (set e | e in some :: e.task) == (set e | e in rest :: e.task) + {x.task};
    }
  }

  /**
   As long as the dispatcher has never delivered or put back a row expired since its pop, no expiry
   is repeated, and the surplus is exactly the late reports.
   */
  lemma OvercountIsLateReports(c: Config, states: seq<State>, actions: seq<Action>, i: nat, b: BatchId)
    requires Run(c, states, actions) && i < |states| && b in states[i].store.batches
    requires forall k | 0 <= k < i && k < |actions| :: !Revives(states[k], actions[k])
    ensures Repeated(states[i], b) == 0
    ensures var s := states[i];
            s.store.batches[b].succeeded + s.store.batches[b].failed <= s.store.batches[b].total + |LateOf(s, b)|
  {
    ExpiredAtMostOnce(c, states, actions, i);
    RunReaches(c, states, actions, i);
    hide Run, Revives, Reachable;
    TasksOfExpiries(ExpiredOf(states[i], b));
    OvercountExactly(c, states[i], b);
  }

  // ── the verdict ──

  /** A batch whose counters have reached its total carries the verdict over them. */
  predicate Judged(batch: Batch) {
    batch.succeeded + batch.failed >= batch.total ==> batch.status == Verdict(batch.succeeded, batch.failed)
  }

  lemma JudgedStep(c: Config, s: State, a: Action, s': State, b: BatchId)
    requires Step(c, s, a, s') && b in s.store.batches && b !in s.left && Judged(s.store.batches[b])
    requires !(a.CancelBatch? && a.batch == b)
    ensures b in s'.store.batches && b !in s'.left && Judged(s'.store.batches[b])
  {
  }

  /**
   Once the launcher has ended with tasks still open, and unless the batch is cancelled, the batch
   ends COMPLETED, FAILED or PARTIAL as its counters say.
   */
  lemma {:induction false} VerdictStands(c: Config, states: seq<State>, actions: seq<Action>, i: nat, j: nat,
                                         b: BatchId)
    requires Run(c, states, actions) && i <= j < |states| && b in states[i].store.batches && b !in states[i].left
    requires var batch := states[i].store.batches[b]; batch.succeeded + batch.failed < batch.total
    requires forall k | i <= k < j :: !(actions[k].CancelBatch? && actions[k].batch == b)
    ensures b in states[j].store.batches && b !in states[j].left && Judged(states[j].store.batches[b])
    decreases j
  {
    if i == j {
    } else {
      hide Step, Judged;
      VerdictStands(c, states, actions, i, j - 1, b);
      JudgedStep(c, states[j - 1], actions[j - 1], states[j], b);
    }
  }

  /** The counters of a batch have reached its total. */
  predicate Full(batch: Batch) {
    batch.succeeded + batch.failed >= batch.total
  }

  /** COMPLETED if no task failed or expired, FAILED if some did and none completed, PARTIAL if both happened. */
  ghost predicate TellsTheTasks(s: State, b: BatchId)
    requires b in s.store.batches
  {
    var status := s.store.batches[b].status;
    var lost := FailedOf(s, b) != {} || ExpiredOf(s, b) != {};
    && (status == BatchStatus.Completed <==> !lost)
    && (status == BatchStatus.Failed <==> lost && CompletedOf(s, b) == {})
    && (status == Partial <==> lost && CompletedOf(s, b) != {})
  }

  /** The verdict on a full batch, told by its tasks. */
  lemma VerdictTellsTheTasks(c: Config, states: seq<State>, actions: seq<Action>, i: nat, j: nat, b: BatchId)
    requires Run(c, states, actions) && i <= j < |states| && b in states[i].store.batches && b !in states[i].left
    requires !Full(states[i].store.batches[b])
    requires forall k | i <= k < j :: !(actions[k].CancelBatch? && actions[k].batch == b)
    requires b in states[j].store.batches && Full(states[j].store.batches[b])
    ensures TellsTheTasks(states[j], b)
  {
    VerdictStands(c, states, actions, i, j, b);
    RunReaches(c, states, actions, j);
    hide Run, Reachable, CompletedOf, FailedOf, ExpiredOf;
    CountersAreExact(c, states[j], b);
  }

  /** Until its counters reach the total, the batch stays as the end of the launcher left it. */
  predicate Undecided(batch: Batch) {
    Full(batch) || batch.status == BatchStatus.Completed
  }

  lemma EndLaunchCompletes(c: Config, s: State, s': State, b: BatchId)
    requires Step(c, s, EndLaunch(b), s') && b in s.store.batches
    ensures b in s'.store.batches && b !in s'.left
    ensures s'.store.batches[b] == s.store.batches[b].(status := BatchStatus.Completed)
  {
  }

  lemma UndecidedStep(c: Config, s: State, a: Action, s': State, b: BatchId)
    requires Step(c, s, a, s') && b in s.store.batches && b !in s.left && Undecided(s.store.batches[b])
    requires !(a.CancelBatch? && a.batch == b)
    ensures b in s'.store.batches && b !in s'.left && Undecided(s'.store.batches[b])
  {
  }

  lemma {:induction false} UndecidedRun(c: Config, states: seq<State>, actions: seq<Action>, i: nat, j: nat,
                                        b: BatchId)
    requires Run(c, states, actions) && i < j < |states| && i < |actions|
    requires actions[i] == EndLaunch(b) && b in states[i].store.batches
    requires forall k | i < k < j && k < |actions| :: !(actions[k].CancelBatch? && actions[k].batch == b)
    ensures b in states[j].store.batches && b !in states[j].left && Undecided(states[j].store.batches[b])
    decreases j
  {
    hide *;
    StepAt(c, states, actions, j);
    if j == i + 1 {
      EndLaunchCompletes(c, states[i], states[j], b);
      CompletedIsUndecided(states[j].store.batches[b]);
    } else {
      UndecidedRun(c, states, actions, i, j - 1, b);
      UndecidedStep(c, states[j - 1], actions[j - 1], states[j], b);
    }
  }

  lemma CompletedIsUndecided(batch: Batch)
    requires batch.status == BatchStatus.Completed
    ensures Undecided(batch)
  {
  }

  /**
   A batch whose launcher ends while tasks are open, and which nobody cancels: it is COMPLETED at once
   and stays so until every task is counted; from then on the verdict tells its tasks.
   */
  lemma StatusAfterLaunch(c: Config, states: seq<State>, actions: seq<Action>, i: nat, j: nat, b: BatchId)
    requires Run(c, states, actions) && i < j < |states| && i < |actions|
    requires actions[i] == EndLaunch(b) && b in states[i].store.batches && !Full(states[i].store.batches[b])
    requires forall k | i < k < j && k < |actions| :: !(actions[k].CancelBatch? && actions[k].batch == b)
    ensures b in states[j].store.batches
    ensures !Full(states[j].store.batches[b]) ==> states[j].store.batches[b].status == BatchStatus.Completed
    ensures Full(states[j].store.batches[b]) ==> TellsTheTasks(states[j], b)
  {
    hide *;
    UndecidedRun(c, states, actions, i, j, b);
    StepAt(c, states, actions, i + 1);
    EndLaunchCompletes(c, states[i], states[i + 1], b);
    SameFullness(states[i].store.batches[b], states[i + 1].store.batches[b]);
    LengthsFit(c, states, actions);
    if Full(states[j].store.batches[b]) {
      VerdictTellsTheTasks(c, states, actions, i + 1, j, b);
    } else {
      OpenStatus(states[j].store.batches[b]);
    }
  }

  lemma SameFullness(batch: Batch, batch': Batch)
    requires batch' == batch.(status := batch'.status)
    ensures Full(batch') <==> Full(batch)
  {
  }

  lemma OpenStatus(batch: Batch)
    requires Undecided(batch) && !Full(batch)
    ensures batch.status == BatchStatus.Completed
  {
  }

  lemma LengthsFit(c: Config, states: seq<State>, actions: seq<Action>)
    requires Run(c, states, actions)
    ensures |states| == |actions| + 1
  {
  }
}
