/**
 The whole protocol as a timed state machine: the store, a clock, one dispatcher, agents and the
 watchdog. A dispatch is two steps, `Pop` and `Finish`, with anything in between.
 */
module TaskRuns {
  import opened Prelude
  import opened TaskQueues
  import opened TaskEffects
  import Waves

  /** The organisation of each active device, and bounds on the environment. */
  datatype Config = Config(orgOf: map<DeviceId, OrgId>, maxTimeout: Time, maxDelay: Time)

  const TICK: Time := 60.0

  /** The watchdog expired `task` at time `at`. */
  datatype Expiry = Expiry(task: TaskId, at: Time)

  function Expiries(some: set<TaskId>, at: Time): set<Expiry> {
    set t | t in some :: Expiry(t, at)
  }

  /** A popped task whose dispatch has not ended yet. */
  datatype Flight = Flight(task: TaskId, device: DeviceId, poppedAt: Time)

  /**
   `lastTick` is the time of the last watchdog cycle and `left` the devices which the launcher of a
   batch has still to ask a task for; a launcher that has ended has no entry. Two histories: `sent`,
   the tasks whose command may have reached an agent, and `expired`, every expiry by the watchdog.
   */
  datatype State = State(
    store: Store, now: Time, lastTick: Time, flight: Option<Flight>,
    sent: set<TaskId>, expired: set<Expiry>, left: map<BatchId, seq<DeviceId>>)

  datatype Action =
    | Advance(dt: Time)
    | Tick
    | Create(request: Request)
    | Pop(device: DeviceId)
    | Finish(outcome: Outcome, reached: bool)
    | Result(task: TaskId, success: bool)
    | Cancel(task: TaskId, org: OrgId)
    | ForceStop(task: TaskId, org: OrgId)
    | CancelBatch(batch: BatchId, org: OrgId)
    | Launch(batch: BatchId, org: OrgId, devices: seq<DeviceId>, plan: seq<DeviceId>)
    | EndLaunch(batch: BatchId)

  predicate Init(s: State) {
    s == State(Store(map[], map[], map[], map[]), 0.0, 0.0, None, {}, {}, map[])
  }

  /**
   What the environment may do. The watchdog runs at least every 60 s, a dispatch ends within
   `maxDelay`, an agent answers only commands that may have reached it, and the launcher of a
   batch calls `create_task` once for each device of its plan, in that order, and then ends.
   */
  ghost predicate Enabled(c: Config, s: State, a: Action) {
    match a
    case Advance(dt) =>
      && dt > 0.0 && s.now + dt <= s.lastTick + TICK
      && (s.flight.Some? ==> s.now + dt <= s.flight.value.poppedAt + c.maxDelay)
    case Tick => true
    case Create(r) =>
      && r.task !in s.store.tasks
      && 0.0 <= r.timeout <= c.maxTimeout
      && DuplicateChosen(s.store.tasks, r)
      && (r.duplicate.Some? ==> r.duplicate.value in s.store.tasks)
      && (r.deviceFound ==> r.device in c.orgOf && c.orgOf[r.device] == r.org)
      && (r.batch.Some? ==>
            && r.batch.value in s.store.batches && r.batch.value in s.left
            && s.left[r.batch.value] != [] && s.left[r.batch.value][0] == r.device
            && s.store.batches[r.batch.value].org == r.org)
    case Pop(device) => s.flight.None? && device in c.orgOf
    case Finish(outcome, reached) =>
      && s.flight.Some? && s.flight.value.device in c.orgOf
      && (outcome.Delivered? ==> reached) && (reached ==> outcome.Delivered? || outcome.Raised?)
    case Result(task, _) => task in s.store.tasks ==> task in s.sent
    case Launch(batch, _, devices, plan) => batch !in s.store.batches && Waves.Plan(devices, plan)
    case EndLaunch(batch) => batch in s.left && s.left[batch] == []
    case _ => true
  }

  ghost function Next(c: Config, s: State, a: Action): State
    requires Enabled(c, s, a)
  {
    match a
    case Advance(dt) => s.(now := s.now + dt)
    case Tick =>
      s.(store := Swept(s.store, s.now), lastTick := s.now,
         expired := s.expired + Expiries(Stale(s.store.tasks, s.now), s.now))
    case Create(r) =>
      s.(store := Created(s.store, r, s.now).0,
         left := if r.batch.Some? then s.left[r.batch.value := s.left[r.batch.value][1..]] else s.left)
    case Pop(device) =>
      var (store, task) := Popped(s.store, c.orgOf[device], device, s.now);
      s.(store := store,
         flight := if task.Some? then Some(Flight(task.value, device, s.now)) else None)
    case Finish(outcome, reached) =>
      var f := s.flight.value;
      s.(store := Dispatched(s.store, f.task, c.orgOf[f.device], f.device, outcome, s.now),
         flight := None,
         sent := if reached then s.sent + {f.task} else s.sent)
    case Result(task, success) =>
      if task in s.store.tasks then
        s.(store := Answered(s.store, task, s.store.tasks[task].device, success, s.now))
      else s
    case Cancel(task, org) => s.(store := CancelledTask(s.store, task, org, s.now).0)
    case ForceStop(task, org) => s.(store := Stopped(s.store, task, org, s.now).0)
    case CancelBatch(batch, org) => s.(store := CancelledBatch(s.store, batch, org, s.now).0)
    case Launch(batch, org, devices, plan) =>
      s.(store := Launched(s.store, batch, org, |devices|), left := s.left[batch := plan])
    case EndLaunch(batch) => s.(store := LaunchFinished(s.store, batch), left := s.left - {batch})
  }

  ghost predicate Step(c: Config, s: State, a: Action, s': State) {
    Enabled(c, s, a) && s' == Next(c, s, a)
  }

  /** Steps one after another, from any state. */
  ghost predicate Steps(c: Config, states: seq<State>, actions: seq<Action>) {
    && |states| == |actions| + 1
    && forall i | 0 <= i < |actions| :: Step(c, states[i], actions[i], states[i + 1])
  }

  ghost predicate Run(c: Config, states: seq<State>, actions: seq<Action>) {
    Steps(c, states, actions) && Init(states[0])
  }

  ghost predicate Reachable(c: Config, s: State) {
    exists states, actions :: Run(c, states, actions) && states[|states| - 1] == s
  }

  lemma OneMoreStep(c: Config, states: seq<State>, actions: seq<Action>, a: Action, s': State)
    requires Steps(c, states, actions) && Step(c, states[|states| - 1], a, s')
    ensures Steps(c, states + [s'], actions + [a])
  {
    hide Step;
    var all, done := states + [s'], actions + [a];
    forall i | 0 <= i < |done| ensures Step(c, all[i], done[i], all[i + 1]) {
      assert i < |actions| ==> Step(c, states[i], actions[i], states[i + 1]);
    }
  }

  lemma StartsInit(c: Config, states: seq<State>, actions: seq<Action>)
    requires Run(c, states, actions)
    ensures |states| > 0 && Init(states[0])
  {
    hide Step, Init;
  }

  lemma StepAt(c: Config, states: seq<State>, actions: seq<Action>, i: nat)
    requires Run(c, states, actions) && 0 < i < |states|
    ensures i <= |actions| && Step(c, states[i - 1], actions[i - 1], states[i])
  {
    hide Step;
    assert Step(c, states[i - 1], actions[i - 1], states[i - 1 + 1]);
  }

  /** `s'` lies on some run through `s`, at or after `s`. */
  ghost predicate Leads(c: Config, s: State, s': State) {
    exists states, actions :: Steps(c, states, actions) && states[0] == s && states[|states| - 1] == s'
  }

  lemma LeadsSelf(c: Config, s: State)
    ensures Leads(c, s, s)
  {
    var states: seq<State>, actions: seq<Action> := [s], [];
    assert Steps(c, states, actions);
  }

  lemma LeadsOn(c: Config, s: State, s': State, a: Action, s'': State)
    requires Leads(c, s, s') && Step(c, s', a, s'')
    ensures Leads(c, s, s'')
  {
    var states, actions :| Steps(c, states, actions) && states[0] == s && states[|states| - 1] == s';
    var states', actions' := states + [s''], actions + [a];
    assert Steps(c, states', actions');
  }

  lemma {:induction false} LeadsFromReachable(c: Config, s: State, s': State)
    requires Reachable(c, s) && Leads(c, s, s')
    ensures Reachable(c, s')
  {
    var states, actions :| Steps(c, states, actions) && states[0] == s && states[|states| - 1] == s';
    for n := 0 to |actions|
      invariant Reachable(c, states[n])
    {
      assert Step(c, states[n], actions[n], states[n + 1]);
      StepReachable(c, states[n], actions[n], states[n + 1]);
    }
  }

  lemma InitReachable(c: Config, s: State)
    requires Init(s)
    ensures Reachable(c, s)
  {
    var states: seq<State>, actions: seq<Action> := [s], [];
    assert Run(c, states, actions);
  }

  lemma StepReachable(c: Config, s: State, a: Action, s': State)
    requires Reachable(c, s) && Step(c, s, a, s')
    ensures Reachable(c, s')
  {
    var states, actions :| Run(c, states, actions) && states[|states| - 1] == s;
    var states', actions' := states + [s'], actions + [a];
    assert Run(c, states', actions');
  }

  /** Every state of a run is reachable. */
  lemma {:induction false} RunReaches(c: Config, states: seq<State>, actions: seq<Action>, i: nat)
    requires Run(c, states, actions) && i < |states|
    ensures Reachable(c, states[i])
  {
    hide *;
    if i == 0 {
      StartsInit(c, states, actions);
      InitReachable(c, states[0]);
    } else {
      RunReaches(c, states, actions, i - 1);
      StepAt(c, states, actions, i);
      StepReachable(c, states[i - 1], actions[i - 1], states[i]);
    }
  }
}
