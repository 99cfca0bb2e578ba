/**
 The queues are priority queues: every slot of every reachable state carries the priority of its row
 and the time of its last enqueue, so a device gets its tasks by priority and then by age.
 */
module TaskPriorities {
  import opened TaskQueues
  import opened TaskOrder
  import opened TaskRuns
  import opened TaskInvariants
  import opened TaskTheorems

  /** When the member of a slot was enqueued, if its score was made with the priority of its row. */
  function EnqueuedAt(s: State, slot: Slot): Time
    requires slot in s.store.zset && slot.task in s.store.tasks
  {
    s.store.zset[slot] - s.store.tasks[slot.task].priority as real * PRIORITY_STEP
  }

  /** The score is the priority of the row times 10^12 plus a time in the life of the row. */
  predicate ScoreOk(s: State, slot: Slot)
    requires slot in s.store.zset
  {
    slot.task in s.store.tasks && s.store.tasks[slot.task].createdAt <= EnqueuedAt(s, slot) <= s.now
  }

  ghost predicate Scored(s: State) {
    && 0.0 <= s.now
    && (forall t | t in s.store.tasks :: 0.0 <= s.store.tasks[t].createdAt)
    && forall slot | slot in s.store.zset :: ScoreOk(s, slot)
  }

  // ── every step keeps it ──

  /** Rows keep their priority and age, and no slot is added. */
  ghost predicate NoneEnqueued(s: State, s': State) {
    && s.now <= s'.now && s'.store.tasks.Keys == s.store.tasks.Keys
    && (forall t | t in s.store.tasks ::
          && s'.store.tasks[t].priority == s.store.tasks[t].priority
          && s'.store.tasks[t].createdAt == s.store.tasks[t].createdAt)
    && forall slot | slot in s'.store.zset ::
         slot in s.store.zset && s'.store.zset[slot] == s.store.zset[slot]
  }

  lemma ScoredWithoutEnqueue(s: State, s': State)
    requires Scored(s) && NoneEnqueued(s, s')
    ensures Scored(s')
  {
    forall slot | slot in s'.store.zset ensures ScoreOk(s', slot) {
      assert ScoreOk(s, slot);
    }
  }

  lemma PopEnqueuesNone(c: Config, s: State, a: Action, s': State)
    requires Step(c, s, a, s') && a.Pop?
    ensures NoneEnqueued(s, s')
  {
  }

  lemma FinishEnqueuesNone(c: Config, s: State, a: Action, s': State)
    requires Step(c, s, a, s') && a.Finish? && !a.outcome.NotDelivered?
    ensures NoneEnqueued(s, s')
  {
  }

  lemma OthersEnqueueNone(c: Config, s: State, a: Action, s': State)
    requires Step(c, s, a, s') && !a.Create? && !a.Pop? && !a.Finish?
    ensures NoneEnqueued(s, s')
  {
  }

  lemma ScoredCreate(c: Config, s: State, a: Action, s': State)
    requires Scored(s) && Step(c, s, a, s') && a.Create?
    ensures Scored(s')
  {
  }

  lemma ScoredRequeue(c: Config, s: State, a: Action, s': State)
    requires Inv(c, s) && Scored(s) && Step(c, s, a, s') && a.Finish? && a.outcome.NotDelivered?
    ensures Scored(s')
  {
    var f := s.flight.value;
    var slot := Slot(c.orgOf[f.device], f.device, f.task);
    assert s'.store.tasks == s.store.tasks && s'.now == s.now && s'.store.zset.Keys == s.store.zset.Keys + {slot};
    assert RowOk(c, s.store.tasks[f.task], s.now);
    assert forall other | other in s.store.zset && other != slot ::
        s'.store.zset[other] == s.store.zset[other] && ScoreOk(s, other);
    hide Inv, Step;
  }

  lemma ScoredStep(c: Config, s: State, a: Action, s': State)
    requires Inv(c, s) && Scored(s) && Step(c, s, a, s')
    ensures Scored(s')
  {
    hide Inv, Scored, Step, NoneEnqueued;
    match a {
      case Create(_) => ScoredCreate(c, s, a, s');
      case Finish(NotDelivered, _) => ScoredRequeue(c, s, a, s');
      case Finish(_, _) => FinishEnqueuesNone(c, s, a, s');
      case Pop(_) => PopEnqueuesNone(c, s, a, s');
      case _ => OthersEnqueueNone(c, s, a, s');
    }
    if NoneEnqueued(s, s') {
      ScoredWithoutEnqueue(s, s');
    }
  }

  lemma ScoredInit(s: State)
    requires Init(s)
    ensures Scored(s)
  {
  }

  lemma {:induction false} ScoredRun(c: Config, states: seq<State>, actions: seq<Action>, i: nat)
    requires Run(c, states, actions) && i < |states|
    ensures Scored(states[i])
  {
    hide *;
    if i == 0 {
      StartsInit(c, states, actions);
      ScoredInit(states[0]);
    } else {
      StepAt(c, states, actions, i);
      ScoredRun(c, states, actions, i - 1);
      InvRun(c, states, actions, i - 1);
      ScoredStep(c, states[i - 1], actions[i - 1], states[i]);
    }
  }

  /** In every reachable state each score is the priority of the row times 10^12 plus an enqueue time. */
  lemma ScoresAreRowPriorities(c: Config, s: State, slot: Slot) returns (at: Time)
    requires Reachable(c, s) && slot in s.store.zset
    ensures slot.task in s.store.tasks && 0.0 <= s.store.tasks[slot.task].createdAt <= at <= s.now
    ensures s.store.zset[slot] == s.store.tasks[slot.task].priority as real * 1000000000000.0 + at
  {
    hide Step;
    var states, actions :| Run(c, states, actions) && states[|states| - 1] == s;
    ScoredRun(c, states, actions, |states| - 1);
    assert ScoreOk(s, slot);
    at := EnqueuedAt(s, slot);
  }

  lemma ReachableScored(c: Config, s: State)
    requires Reachable(c, s)
    ensures Scored(s)
  {
    hide Step;
    var states, actions :| Run(c, states, actions) && states[|states| - 1] == s;
    ScoredRun(c, states, actions, |states| - 1);
  }

  // ── in what order a device gets its tasks ──

  /** By priority of the rows, and inside a class by enqueue time, ties by id. */
  predicate RowAhead(s: State, org: OrgId, device: DeviceId, t: TaskId, u: TaskId)
    requires t in s.store.tasks && u in s.store.tasks
    requires Slot(org, device, t) in s.store.zset && Slot(org, device, u) in s.store.zset
  {
    var p, q := s.store.tasks[t].priority, s.store.tasks[u].priority;
    var at, at' := EnqueuedAt(s, Slot(org, device, t)), EnqueuedAt(s, Slot(org, device, u));
    p < q || (p == q && (at < at' || (at == at' && t < u)))
  }

  /** What the queue of a device holds, each task once and in the order of its row. */
  ghost predicate ByRows(s: State, org: OrgId, device: DeviceId, d: seq<TaskId>) {
    && (forall t :: t in d <==> Slot(org, device, t) in s.store.zset)
    && (forall t | t in d :: t in s.store.tasks)
    && forall i, j | 0 <= i < j < |d| :: d[i] != d[j] && RowAhead(s, org, device, d[i], d[j])
  }

  ghost function Tickets(s: State, org: OrgId, device: DeviceId): map<TaskId, Ticket>
    requires Scored(s)
  {
    map t | t in Members(s.store.zset, org, device) ::
      var slot := Slot(org, device, t);
      assert ScoreOk(s, slot);
      Ticket(s.store.tasks[t].priority, EnqueuedAt(s, slot))
  }

  lemma RowsAreTickets(s: State, org: OrgId, device: DeviceId)
    requires Scored(s) && s.now < PRIORITY_STEP
    ensures Ticketed(s.store.zset, org, device, Tickets(s, org, device))
  {
    forall t | t in Members(s.store.zset, org, device)
      ensures t in Tickets(s, org, device) && 0.0 <= Tickets(s, org, device)[t].time < PRIORITY_STEP
      ensures s.store.zset[Slot(org, device, t)]
           == Score(Tickets(s, org, device)[t].priority, Tickets(s, org, device)[t].time)
    {
      assert ScoreOk(s, Slot(org, device, t));
    }
  }

  /**
   In every reachable state before second 10^12, emptying the queue of a device yields its tasks sorted
   by the priority of their rows, and inside a class first come, first served.
   */
  lemma QueuesFollowRowPriority(c: Config, s: State, org: OrgId, device: DeviceId)
    requires Reachable(c, s) && s.now < PRIORITY_STEP
    ensures ByRows(s, org, device, Drain(s.store.zset, s.store.locks, org, device, s.now))
  {
    ReachableScored(c, s);
    RowsAreTickets(s, org, device);
    hide Reachable, Scored, Drain, Tickets, Ticketed, InOrder, ByRows;
    DrainIsSorted(s.store.zset, s.store.locks, org, device, s.now, Tickets(s, org, device));
    InOrderByRows(s, org, device, Drain(s.store.zset, s.store.locks, org, device, s.now));
  }

  lemma InOrderByRows(s: State, org: OrgId, device: DeviceId, d: seq<TaskId>)
    requires Scored(s) && InOrder(d, Tickets(s, org, device))
    requires forall t :: t in d <==> t in Members(s.store.zset, org, device)
    ensures ByRows(s, org, device, d)
  {
    var tickets := Tickets(s, org, device);
    forall t ensures t in d <==> Slot(org, device, t) in s.store.zset {
      assert t in d <==> t in Members(s.store.zset, org, device);
    }
    forall t | t in d ensures t in s.store.tasks {
      assert ScoreOk(s, Slot(org, device, t));
    }
    forall i, j | 0 <= i < j < |d| ensures d[i] != d[j] && RowAhead(s, org, device, d[i], d[j]) {
      assert Ahead(tickets[d[i]], d[i], tickets[d[j]], d[j]);
      assert d[i] in d && d[j] in d;
    }
  }

  /** The dispatcher takes a task that no other task of the queue comes before. */
  lemma PopTakesMostUrgent(c: Config, s: State, a: Action, s': State, u: TaskId)
    requires Reachable(c, s) && s.now < PRIORITY_STEP && Step(c, s, a, s') && a.Pop? && s'.flight.Some?
    requires Slot(c.orgOf[a.device], a.device, u) in s.store.zset && u != s'.flight.value.task
    ensures var t := s'.flight.value.task;
            && t in s.store.tasks && u in s.store.tasks && Slot(c.orgOf[a.device], a.device, t) in s.store.zset
            && RowAhead(s, c.orgOf[a.device], a.device, t, u)
  {
    ReachableScored(c, s);
    var t, org := s'.flight.value.task, c.orgOf[a.device];
    RowsAreTickets(s, org, a.device);
    assert u in Members(s.store.zset, org, a.device);
    assert IsFirst(s.store.zset, org, a.device, t);
    assert t in Members(s.store.zset, org, a.device);
    hide Reachable, Step;
    FirstIsAhead(s.store.zset, org, a.device, Tickets(s, org, a.device), t, u);
    assert ScoreOk(s, Slot(org, a.device, t)) && ScoreOk(s, Slot(org, a.device, u));
  }

  /** A delivery that failed puts the task back with the time of that failure and frees the device. */
  lemma RequeuedNow(c: Config, s: State, a: Action, s': State)
    requires Inv(c, s) && Step(c, s, a, s') && a.Finish? && a.outcome.NotDelivered?
    ensures var f := s.flight.value; var slot := Slot(c.orgOf[f.device], f.device, f.task);
            && f.task in s'.store.tasks && slot in s'.store.zset && EnqueuedAt(s', slot) == s'.now == s.now
            && s'.store.tasks[f.task] == s.store.tasks[f.task]
            && f.device !in s'.store.locks
  {
  }

  /** Everything behind position `k` is in a worse class than `t`, or was enqueued at this instant. */
  ghost predicate StandsBehindClass(s: State, org: OrgId, device: DeviceId, d: seq<TaskId>, k: nat, t: TaskId)
    requires ByRows(s, org, device, d) && t in s.store.tasks
  {
    && k < |d| && d[k] == t
    && (forall i | 0 <= i < k :: d[i] in d && s.store.tasks[d[i]].priority <= s.store.tasks[t].priority)
    && forall i | k < i < |d| ::
         && d[i] in d
         && (s.store.tasks[d[i]].priority > s.store.tasks[t].priority
             || EnqueuedAt(s, Slot(org, device, d[i])) == s.now)
  }

  /**
   A task whose delivery failed comes back in the class of its own row, behind every member of that
   class that was enqueued before.
   */
  lemma FailedDeliveryGoesBehindItsClass(c: Config, s: State, a: Action, s': State) returns (k: nat)
    requires Reachable(c, s) && Step(c, s, a, s') && a.Finish? && a.outcome.NotDelivered? && s.now < PRIORITY_STEP
    ensures var f := s.flight.value;
            var org, d := c.orgOf[f.device], Drain(s'.store.zset, s'.store.locks, c.orgOf[f.device], f.device, s'.now);
            ByRows(s', org, f.device, d) && f.task in s'.store.tasks
            && StandsBehindClass(s', org, f.device, d, k, f.task)
  {
    ReachableInv(c, s);
    StepReachable(c, s, a, s');
    RequeuedNow(c, s, a, s');
    ReachableScored(c, s');
    var f := s.flight.value;
    var org := c.orgOf[f.device];
    hide Step, Inv, Reachable, Drain, Scored, ByRows, StandsBehindClass;
    QueuesFollowRowPriority(c, s', org, f.device);
    k := BehindItsClass(s', org, f.device, Drain(s'.store.zset, s'.store.locks, org, f.device, s'.now), f.task);
  }

  lemma BehindItsClass(s: State, org: OrgId, device: DeviceId, d: seq<TaskId>, t: TaskId) returns (k: nat)
    requires Scored(s) && ByRows(s, org, device, d)
    requires Slot(org, device, t) in s.store.zset && t in s.store.tasks
    requires EnqueuedAt(s, Slot(org, device, t)) == s.now
    ensures StandsBehindClass(s, org, device, d, k, t)
  {
    assert t in d;
    k :| 0 <= k < |d| && d[k] == t;
    forall i | 0 <= i < k ensures d[i] in d && s.store.tasks[d[i]].priority <= s.store.tasks[t].priority {
      assert RowAhead(s, org, device, d[i], d[k]);
    }
    forall i | k < i < |d|
      ensures d[i] in d
              && (s.store.tasks[d[i]].priority > s.store.tasks[t].priority
                  || EnqueuedAt(s, Slot(org, device, d[i])) == s.now)
    {
      assert RowAhead(s, org, device, d[k], d[i]);
      assert ScoreOk(s, Slot(org, device, d[i]));
    }
  }
}
