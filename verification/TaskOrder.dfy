/**
 What the score buys: draining a device's sorted set yields its tasks by priority class, and
 inside a class by enqueue time.
 */
module TaskOrder {
  import opened TaskQueues

  /** The arguments of the `enqueue` call that put a member where it is. */
  datatype Ticket = Ticket(priority: int, time: Time)

  predicate Ahead(a: Ticket, taskA: TaskId, b: Ticket, taskB: TaskId) {
    || a.priority < b.priority
    || (a.priority == b.priority && a.time < b.time)
    || (a == b && taskA < taskB)
  }

  /** Every member of the device's set carries the score of its ticket; clocks are below 10^12. */
  ghost predicate Ticketed(z: Zset, org: OrgId, device: DeviceId, tickets: map<TaskId, Ticket>) {
    forall task | task in Members(z, org, device) ::
      && task in tickets
      && 0.0 <= tickets[task].time < PRIORITY_STEP
      && z[Slot(org, device, task)] == Score(tickets[task].priority, tickets[task].time)
  }

  /** Comparing scores is comparing (priority, time), as long as the time stays below 10^12. */
  lemma ScoreIsLexicographic(a: Ticket, taskA: TaskId, b: Ticket, taskB: TaskId)
    requires 0.0 <= a.time < PRIORITY_STEP && 0.0 <= b.time < PRIORITY_STEP
    ensures Before(Score(a.priority, a.time), taskA, Score(b.priority, b.time), taskB)
       <==> Ahead(a, taskA, b, taskB)
  {
    var d := b.priority - a.priority;
    assert Score(b.priority, b.time) - Score(a.priority, a.time) == d as real * PRIORITY_STEP + b.time - a.time;
    if d >= 1 {
      assert d as real >= 1.0;
    } else if d <= -1 {
      assert d as real <= -1.0;
    }
  }

  /** Repeated dequeue and complete, with no enqueue in between, until nothing is returned. */
  ghost function Drain(z: Zset, locks: Locks, org: OrgId, device: DeviceId, now: Time): seq<TaskId>
    decreases |z|
  {
    var (rest, held, task) := Dequeued(z, locks - {device}, org, device, now);
    if task.None? then []
    else
      PopShrinks(z, Slot(org, device, task.value));
      [task.value] + Drain(rest, held, org, device, now)
  }

  lemma PopShrinks(z: Zset, slot: Slot)
    requires slot in z
    ensures |z - {slot}| < |z|
  {
    assert z.Keys == (z - {slot}).Keys + {slot};
  }

  /** Each task of `d` goes ahead of every later one; in particular no task occurs twice. */
  ghost predicate InOrder(d: seq<TaskId>, tickets: map<TaskId, Ticket>) {
    && (forall task | task in d :: task in tickets)
    && forall i, j | 0 <= i < j < |d| :: d[i] != d[j] && Ahead(tickets[d[i]], d[i], tickets[d[j]], d[j])
  }

  lemma PopLeavesOthers(z: Zset, org: OrgId, device: DeviceId, x: TaskId)
    ensures Members(z - {Slot(org, device, x)}, org, device) == Members(z, org, device) - {x}
  {
    var rest := z - {Slot(org, device, x)};
    forall t | t in Members(z, org, device) && t != x ensures t in Members(rest, org, device) {
      assert Slot(org, device, t) in rest;
    }
  }

  lemma FirstIsAhead(z: Zset, org: OrgId, device: DeviceId, tickets: map<TaskId, Ticket>, x: TaskId, t: TaskId)
    requires Ticketed(z, org, device, tickets)
    requires IsFirst(z, org, device, x) && t in Members(z, org, device) && t != x
    ensures x in tickets && t in tickets && Ahead(tickets[x], x, tickets[t], t)
  {
    assert x in Members(z, org, device);
    ScoreIsLexicographic(tickets[x], x, tickets[t], t);
  }

  lemma InOrderCons(x: TaskId, tail: seq<TaskId>, tickets: map<TaskId, Ticket>)
    requires x in tickets && InOrder(tail, tickets)
    requires forall t | t in tail :: t != x && Ahead(tickets[x], x, tickets[t], t)
    ensures InOrder([x] + tail, tickets)
  {
    var d := [x] + tail;
    forall i, j | 0 <= i < j < |d|
      ensures d[i] != d[j] && Ahead(tickets[d[i]], d[i], tickets[d[j]], d[j])
    {
      assert d[j] == tail[j - 1] && d[j] in tail;
      if i > 0 {
        assert d[i] == tail[i - 1];
      }
    }
  }

  /** The drain returns every member exactly once, ordered by priority, time and id. */
  lemma {:induction false} DrainIsSorted(z: Zset, locks: Locks, org: OrgId, device: DeviceId, now: Time,
                                         tickets: map<TaskId, Ticket>)
    requires Ticketed(z, org, device, tickets)
    ensures forall task :: task in Drain(z, locks, org, device, now) <==> task in Members(z, org, device)
    ensures InOrder(Drain(z, locks, org, device, now), tickets)
    decreases |z|
  {
    var (rest, held, task) := Dequeued(z, locks - {device}, org, device, now);
    if task.Some? {
      var x := task.value;
      PopShrinks(z, Slot(org, device, x));
      PopLeavesOthers(z, org, device, x);
      assert x in Members(z, org, device);
      DrainIsSorted(rest, held, org, device, now, tickets);
      var tail := Drain(rest, held, org, device, now);
      forall t | t in tail ensures t != x && Ahead(tickets[x], x, tickets[t], t) {
        FirstIsAhead(z, org, device, tickets, x, t);
      }
      InOrderCons(x, tail, tickets);
    }
  }

  /** `task` stands at position `k`: classes up to its own come before it, worse ones after it. */
  ghost predicate StandsAt(d: seq<TaskId>, k: nat, task: TaskId, priority: int, tickets: map<TaskId, Ticket>) {
    && k < |d| && d[k] == task
    && (forall i | 0 <= i < |d| && i != k :: d[i] in tickets)
    && (forall i | 0 <= i < k :: tickets[d[i]].priority <= priority)
    && (forall i | k < i < |d| :: tickets[d[i]].priority > priority)
  }

  /**
   A task put back after a failed delivery keeps its priority class but goes behind the members
   of that class which were enqueued earlier.
   */
  lemma RequeueGoesBehind(z: Zset, locks: Locks, org: OrgId, device: DeviceId, now: Time,
                          tickets: map<TaskId, Ticket>, task: TaskId, priority: int)
    returns (k: nat)
    requires Ticketed(z, org, device, tickets) && 0.0 <= now < PRIORITY_STEP
    requires task !in Members(z, org, device)
    requires forall other | other in Members(z, org, device) :: tickets[other].time < now
    ensures StandsAt(Drain(z[Slot(org, device, task) := Score(priority, now)], locks, org, device, now),
                     k, task, priority, tickets)
  {
    var slot := Slot(org, device, task);
    var z' := z[slot := Score(priority, now)];
    var tickets' := tickets[task := Ticket(priority, now)];
    assert slot in z';
    assert task in Members(z', org, device);
    forall t | t in Members(z', org, device) && t != task ensures t in Members(z, org, device) {
      assert Slot(org, device, t) in z;
    }
    DrainIsSorted(z', locks, org, device, now, tickets');
    var d := Drain(z', locks, org, device, now);
    assert task in d;
    k :| 0 <= k < |d| && d[k] == task;
    forall i | 0 <= i < |d| && i != k ensures d[i] in Members(z, org, device) {
      assert d[i] in d;
      assert if i < k then d[i] != d[k] else d[k] != d[i];
    }
    assert StandsAt(d, k, task, priority, tickets);
  }
}
