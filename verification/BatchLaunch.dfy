/**
 A whole batch, from `start_batch` to the end of its background launcher, is a run of the state
 machine: one launch, one create for each device of the waves, and the end of the launcher.
 */
module BatchLaunches {
  import opened Prelude
  import opened TaskQueues
  import opened TaskEffects
  import opened TaskRuns
  import opened TaskServices
  import Waves

  /** How the launcher asks for a task for its k-th device. */
  type Asking = (nat, DeviceId) -> Call

  function AskAll(ask: Asking, plan: seq<DeviceId>, from: nat): (calls: seq<Call>)
    ensures |calls| == |plan|
  {
    seq(|plan|, k requires 0 <= k < |plan| => ask(from + k, plan[k]))
  }

  /** What a call of the launcher asks for, at the time of the launch. */
  predicate Suits(c: Config, s: State, b: BatchId, org: OrgId, d: DeviceId, call: Call) {
    var r := call.request;
    && r.device == d && r.org == org && r.batch == Some(b) && call.at == s.now
    && r.task !in s.store.tasks && 0.0 <= r.timeout <= c.maxTimeout
    && (r.deviceFound ==> d in c.orgOf && c.orgOf[d] == org)
  }

  ghost predicate AllSuit(c: Config, s: State, b: BatchId, org: OrgId, ask: Asking) {
    && (forall k: nat, d: DeviceId :: Suits(c, s, b, org, d, ask(k, d)))
    && (forall k: nat, d: DeviceId, m: nat, e: DeviceId | k != m :: ask(k, d).request.task != ask(m, e).request.task)
  }

  function Creates(made: seq<Call>): (actions: seq<Action>)
    ensures |actions| == |made|
  {
    seq(|made|, k requires 0 <= k < |made| => Create(made[k].request))
  }

  /** The state after the first `k` calls. */
  function Launching(s: State, b: BatchId, org: OrgId, total: nat, plan: seq<DeviceId>, made: seq<Call>, k: nat): State
    requires k <= |made| && k <= |plan|
  {
    s.(store := CreatedAll(Launched(s.store, b, org, total), made[..k]), left := s.left[b := plan[k..]])
  }

  /** Calls that suit the plan and ask for different rows. */
  ghost predicate GoodCalls(c: Config, s: State, b: BatchId, org: OrgId, plan: seq<DeviceId>, made: seq<Call>) {
    && |made| == |plan|
    && (forall k | 0 <= k < |made| :: Suits(c, s, b, org, plan[k], made[k]))
    && (forall k, m | 0 <= k < m < |made| :: made[k].request.task != made[m].request.task)
  }

  lemma StillNew(st: Store, made: seq<Call>, k: nat)
    requires k < |made| && made[k].request.task !in st.tasks
    requires forall m | 0 <= m < k :: made[m].request.task != made[k].request.task
    ensures made[k].request.task !in CreatedAll(st, made[..k]).tasks
  {
    hide CreatedAll;
    assert forall m | 0 <= m < k :: made[..k][m] == made[m];
    if made[k].request.task in CreatedAll(st, made[..k]).tasks {
      var m := NewRowsWereAskedFor(st, made[..k], made[k].request.task);
    }
  }

  lemma NextCreated(st: Store, made: seq<Call>, k: nat)
    requires k < |made| && Truthful(st, made)
    ensures TruthfulCall(CreatedAll(st, made[..k]), made[k])
    ensures CreatedAll(st, made[..k + 1]) == Created(CreatedAll(st, made[..k]), made[k].request, made[k].at).0
  {
    assert made[..k + 1][..k] == made[..k];
  }

  /** Each call of the launcher is an enabled step. */
  lemma CreateStep(c: Config, s: State, b: BatchId, org: OrgId, total: nat, plan: seq<DeviceId>, made: seq<Call>,
                   k: nat)
    requires GoodCalls(c, s, b, org, plan, made) && k < |made|
    requires Truthful(Launched(s.store, b, org, total), made)
    ensures Step(c, Launching(s, b, org, total, plan, made, k), Create(made[k].request),
                 Launching(s, b, org, total, plan, made, k + 1))
  {
    var st := Launched(s.store, b, org, total);
    assert Suits(c, s, b, org, plan[k], made[k]);
    StillNew(st, made, k);
    NextCreated(st, made, k);
    OldRowsStay(st, made[..k]);
    hide CreatedAll, Created, GoodCalls, Truthful, DuplicateChosen;
    assert plan[k..][0] == plan[k] && plan[k..][1..] == plan[k + 1..];
    assert s.left[b := plan[k..]][b := plan[k + 1..]] == s.left[b := plan[k + 1..]];
  }

  /** The launch, its calls and its end, each enabled after the one before. */
  lemma LaunchIsARun(c: Config, s: State, b: BatchId, org: OrgId, devices: seq<DeviceId>, plan: seq<DeviceId>,
                     made: seq<Call>)
    returns (states: seq<State>)
    requires b !in s.store.batches && Waves.Plan(devices, plan)
    requires GoodCalls(c, s, b, org, plan, made) && Truthful(Launched(s.store, b, org, |devices|), made)
    ensures Steps(c, states, [Launch(b, org, devices, plan)] + Creates(made) + [EndLaunch(b)])
    ensures states[0] == s
    ensures states[|states| - 1].store == LaunchFinished(CreatedAll(Launched(s.store, b, org, |devices|), made), b)
  {
    var total, launch := |devices|, Launch(b, org, devices, plan);
    StartsLaunch(c, s, b, org, devices, plan, made);
    hide Step, Launching, GoodCalls, Truthful, CreatedAll;
    states := [s, Launching(s, b, org, total, plan, made, 0)];
    var actions := [launch];
    assert Steps(c, states, actions) && actions == [launch] + Creates(made)[..0];
    hide Steps, Creates;
    for k := 0 to |made|
      invariant |states| == k + 2 && states[0] == s && states[k + 1] == Launching(s, b, org, total, plan, made, k)
      invariant Steps(c, states, actions) && actions == [launch] + Creates(made)[..k]
    {
      var next := Launching(s, b, org, total, plan, made, k + 1);
      CreateStep(c, s, b, org, total, plan, made, k);
      OneMoreStep(c, states, actions, Create(made[k].request), next);
      OneMoreCreate(launch, made, k);
      states, actions := states + [next], actions + [Create(made[k].request)];
    }
    var end := EndsLaunch(c, s, b, org, total, plan, made);
    OneMoreStep(c, states, actions, EndLaunch(b), end);
    assert Creates(made)[..|made|] == Creates(made);
    states := states + [end];
  }

  lemma OneMoreCreate(launch: Action, made: seq<Call>, k: nat)
    requires k < |made|
    ensures [launch] + Creates(made)[..k + 1] == [launch] + Creates(made)[..k] + [Create(made[k].request)]
  {
  }

  lemma StartsLaunch(c: Config, s: State, b: BatchId, org: OrgId, devices: seq<DeviceId>, plan: seq<DeviceId>,
                     made: seq<Call>)
    requires b !in s.store.batches && Waves.Plan(devices, plan)
    ensures Step(c, s, Launch(b, org, devices, plan), Launching(s, b, org, |devices|, plan, made, 0))
  {
    assert plan[0..] == plan && made[..0] == [];
  }

  lemma EndsLaunch(c: Config, s: State, b: BatchId, org: OrgId, total: nat, plan: seq<DeviceId>, made: seq<Call>)
    returns (end: State)
    requires |made| == |plan|
    ensures Step(c, Launching(s, b, org, total, plan, made, |made|), EndLaunch(b), end)
    ensures end.store == LaunchFinished(CreatedAll(Launched(s.store, b, org, total), made), b)
  {
    hide CreatedAll;
    assert plan[|made|..] == [] && made[..|made|] == made;
    end := Next(c, Launching(s, b, org, total, plan, made, |made|), EndLaunch(b));
  }

  /** The devices for which the launcher of a batch has asked, in order. */
  function AskedBy(actions: seq<Action>, b: BatchId): seq<DeviceId> {
    if actions == [] then []
    else
      var last := actions[|actions| - 1];
      AskedBy(actions[..|actions| - 1], b)
      + if last.Create? && last.request.batch == Some(b) then [last.request.device] else []
  }

  lemma LeftStep(c: Config, s: State, a: Action, s': State, b: BatchId)
    requires Step(c, s, a, s') && b in s.left && b in s.store.batches && a != EndLaunch(b)
    ensures b in s'.left && b in s'.store.batches
    ensures s.left[b] == AskedBy([a], b) + s'.left[b]
  {
    assert [a][..0] == [];
  }

  lemma LeftAtStart(c: Config, s: State, a: Action, s': State)
    requires Step(c, s, a, s') && a.Launch?
    ensures a.batch in s'.left && a.batch in s'.store.batches && a.plan == AskedBy([], a.batch) + s'.left[a.batch]
  {
  }

  lemma AskedNext(actions: seq<Action>, a: Action, b: BatchId)
    ensures AskedBy(actions + [a], b) == AskedBy(actions, b) + AskedBy([a], b)
  {
    assert (actions + [a])[..|actions|] == actions && [a][..0] == [];
  }

  /**
   In every run, whatever other steps come between the calls of a launcher, it asks for the devices of
   its plan in order: those asked for and those still to come are the plan.
   */
  lemma {:induction false} PlanIsFollowed(c: Config, states: seq<State>, actions: seq<Action>, i: nat, j: nat,
                                          b: BatchId)
    requires Run(c, states, actions) && i < j < |states| && j <= |actions|
    requires actions[i].Launch? && actions[i].batch == b
    requires forall k | i < k < j :: actions[k] != EndLaunch(b)
    ensures b in states[j].left && b in states[j].store.batches
    ensures actions[i].plan == AskedBy(actions[i + 1..j], b) + states[j].left[b]
    decreases j
  {
    hide *;
    StepAt(c, states, actions, j);
    if j == i + 1 {
      assert actions[i + 1..j] == [];
      LeftAtStart(c, states[i], actions[i], states[j]);
    } else {
      PlanIsFollowed(c, states, actions, i, j - 1, b);
      LeftStep(c, states[j - 1], actions[j - 1], states[j], b);
      assert actions[i + 1..j] == actions[i + 1..j - 1] + [actions[j - 1]];
      AskedNext(actions[i + 1..j - 1], actions[j - 1], b);
      AppendAssociates(AskedBy(actions[i + 1..j - 1], b), AskedBy([actions[j - 1]], b), states[j].left[b]);
    }
  }

  /** And it ends only after the last of them. */
  lemma LauncherEndsDone(c: Config, states: seq<State>, actions: seq<Action>, i: nat, j: nat, b: BatchId)
    requires Run(c, states, actions) && i < j < |actions|
    requires actions[i].Launch? && actions[i].batch == b && actions[j] == EndLaunch(b)
    requires forall k | i < k < j :: actions[k] != EndLaunch(b)
    ensures AskedBy(actions[i + 1..j], b) == actions[i].plan
  {
    StepAt(c, states, actions, j + 1);
    PlanIsFollowed(c, states, actions, i, j, b);
  }

  lemma AskNext(ask: Asking, plan: seq<DeviceId>, wave: seq<DeviceId>)
    ensures AskAll(ask, plan + wave, 0) == AskAll(ask, plan, 0) + AskAll(ask, wave, |plan|)
  {
  }

  lemma AskedAreGood(c: Config, s: State, b: BatchId, org: OrgId, ask: Asking, plan: seq<DeviceId>, made: seq<Call>)
    requires AllSuit(c, s, b, org, ask) && Made(AskAll(ask, plan, 0), made)
    ensures GoodCalls(c, s, b, org, plan, made)
  {
    var asked := AskAll(ask, plan, 0);
    forall k | 0 <= k < |made|
      ensures Suits(c, s, b, org, plan[k], made[k]) && made[k].request.task == asked[k].request.task {
      assert SameCall(asked[k], made[k]);
      assert Suits(c, s, b, org, plan[k], ask(k, plan[k]));
    }
  }

  lemma AskedAreNew(c: Config, s: State, b: BatchId, org: OrgId, ask: Asking, plan: seq<DeviceId>)
    requires AllSuit(c, s, b, org, ask)
    ensures Distinct(AskAll(ask, plan, 0)) && Requested(AskAll(ask, plan, 0)) !! s.store.tasks.Keys
  {
    var asked := AskAll(ask, plan, 0);
    forall call | call in asked ensures call.request.task !in s.store.tasks {
      var k :| 0 <= k < |asked| && asked[k] == call;
      assert Suits(c, s, b, org, plan[k], ask(k, plan[k]));
    }
  }

  /** Turns the waves into calls. */
  method CallsFor(waves: seq<seq<DeviceId>>, ask: Asking) returns (calls: seq<seq<Call>>)
    ensures Flat(calls) == AskAll(ask, Waves.Flat(waves), 0)
  {
    calls := [];
    var asked := 0;
    for i := 0 to |waves|
      invariant Flat(calls) == AskAll(ask, Waves.Flat(waves[..i]), 0) && asked == |Waves.Flat(waves[..i])|
    {
      assert waves[..i + 1] == waves[..i] + [waves[i]];
      Waves.FlatAppend(waves[..i], waves[i]);
      AskNext(ask, Waves.Flat(waves[..i]), waves[i]);
      var wave := AskAll(ask, waves[i], asked);
      assert (calls + [wave])[..|calls|] == calls;
      calls := calls + [wave];
      asked := asked + |waves[i]|;
    }
    assert waves[..|waves|] == waves;
  }

  /**
   `start_batch` followed by its launcher. `rows` is the answer of the device query and `ask` builds
   the request for a device; `c` and `s` say in which state of which fleet this happens.
   */
  method RunBatch(service: BatchService, tasks: TaskService, b: BatchId, org: OrgId, devices: seq<DeviceId>,
                  rows: seq<Waves.Row>, waveSize: nat, stagger: bool, ask: Asking, ghost c: Config, ghost s: State)
    returns (failed: nat, ghost plan: seq<DeviceId>, ghost made: seq<Call>, ghost states: seq<State>)
    requires tasks.db == service.db && tasks.queue == service.queue && s.store == Contents(service.db, service.queue)
    requires b !in service.db.batches && waveSize > 0
    requires Waves.Single(rows) && forall row | row in rows :: row.id in devices
    requires AllSuit(c, s, b, org, ask)
    modifies service.db, service.queue
    ensures Waves.Plan(devices, plan) && Made(AskAll(ask, plan, 0), made)
    ensures if stagger then Waves.Staggered(rows, plan) else plan == devices
    ensures Steps(c, states, [Launch(b, org, devices, plan)] + Creates(made) + [EndLaunch(b)])
    ensures states[0] == s && states[|states| - 1].store == Contents(service.db, service.queue)
    ensures |service.db.tasks| + failed == |old(service.db.tasks)| + |plan| <= |old(service.db.tasks)| + |devices|
  {
    service.StartBatch(b, org, devices);
    var waves;
    ghost var groups, tags;
    waves, groups, tags := Waves.CreateWaves(devices, rows, waveSize, stagger);
    plan := Waves.Flat(waves);
    var calls := CallsFor(waves, ask);
    AskedAreNew(c, s, b, org, ask, plan);
    ghost var done;
    failed, made, done := service.ExecuteWaves(tasks, b, calls);
    AskedAreGood(c, s, b, org, ask, plan, made);
    states := LaunchIsARun(c, s, b, org, devices, plan, made);
    Waves.PlanFits(devices, plan);
  }
}
