/**
 What the duplicate check of create_task is worth: a device never has two open tasks for the same
 script version, except when the dispatcher starts a task that has been given up since it was queued.
 */
module TaskDuplicates {
  import opened TaskQueues
  import opened TaskRuns
  import opened TaskInvariants
  import opened TaskOrigins
  import opened TaskTimeouts

  /** `u` is another open task, and asks the device of `t` for the same script version. */
  predicate Rival(s: State, t: TaskId, u: TaskId) {
    && t != u && t in s.store.tasks && u in s.store.tasks && s.store.tasks[u].Open()
    && s.store.tasks[t].device == s.store.tasks[u].device && s.store.tasks[t].org == s.store.tasks[u].org
    && s.store.tasks[t].version == s.store.tasks[u].version
  }

  predicate Twins(s: State, t: TaskId, u: TaskId) {
    Rival(s, t, u) && s.store.tasks[t].Open()
  }

  ghost predicate NoTwins(s: State) {
    forall t, u :: !Twins(s, t, u)
  }

  /** The dispatcher delivers a task while another open task asks its device for the same version. */
  ghost predicate StartsTwin(s: State, a: Action) {
    && a.Finish? && a.outcome.Delivered? && s.flight.Some?
    && exists u :: Rival(s, s.flight.value.task, u)
  }

  lemma TwinsCreate(c: Config, s: State, a: Action, s': State)
    requires NoTwins(s) && Step(c, s, a, s') && a.Create?
    ensures NoTwins(s')
  {
    forall t, u ensures !Twins(s', t, u) {
      assert !Twins(s, t, u);
      if t != a.request.task && a.request.duplicate.Some? {
        assert !Twins(s, t, a.request.duplicate.value);
      }
      if u != a.request.task && a.request.duplicate.Some? {
        assert !Twins(s, u, a.request.duplicate.value);
      }
    }
  }

  lemma TwinsFinish(c: Config, s: State, a: Action, s': State)
    requires Inv(c, s) && NoTwins(s) && Step(c, s, a, s') && a.Finish?
    ensures NoTwins(s') <==> !StartsTwin(s, a)
  {
    var f := s.flight.value;
    assert s'.store.tasks.Keys == s.store.tasks.Keys && f.task in s.store.tasks;
    assert forall t | t in s.store.tasks && t != f.task :: s'.store.tasks[t] == s.store.tasks[t];
    assert SameOrigin(s.store.tasks[f.task], s'.store.tasks[f.task]);
    assert s'.store.tasks[f.task].Open() ==> a.outcome.Delivered? || s.store.tasks[f.task].Open();
    assert a.outcome.Delivered? ==> s'.store.tasks[f.task].Open();
    hide Inv, Step;
    TwinsOfOne(s, a, s', f.task);
  }

  lemma TwinsOfOne(s: State, a: Action, s': State, x: TaskId)
    requires NoTwins(s) && a.Finish? && s.flight.Some? && s.flight.value.task == x
    requires s'.store.tasks.Keys == s.store.tasks.Keys && x in s.store.tasks
    requires forall t | t in s.store.tasks && t != x :: s'.store.tasks[t] == s.store.tasks[t]
    requires SameOrigin(s.store.tasks[x], s'.store.tasks[x])
    requires s'.store.tasks[x].Open() ==> a.outcome.Delivered? || s.store.tasks[x].Open()
    requires a.outcome.Delivered? ==> s'.store.tasks[x].Open()
    ensures NoTwins(s') <==> !StartsTwin(s, a)
  {
    if StartsTwin(s, a) {
      var u :| Rival(s, x, u);
      assert Twins(s', x, u);
    } else {
      forall t, u ensures !Twins(s', t, u) {
        assert !Twins(s, t, u) && (a.outcome.Delivered? ==> !Rival(s, x, t) && !Rival(s, x, u));
      }
    }
  }

  /** No row is reopened. */
  ghost predicate NoneReopened(s: State, s': State) {
    forall t | t in s.store.tasks && t in s'.store.tasks && s'.store.tasks[t].Open() :: s.store.tasks[t].Open()
  }

  lemma SweepsReopenNone(c: Config, s: State, a: Action, s': State)
    requires Step(c, s, a, s') && (a.Tick? || a.CancelBatch?)
    ensures NoneReopened(s, s')
  {
  }

  lemma CallsReopenNone(c: Config, s: State, a: Action, s': State)
    requires Step(c, s, a, s') && (a.Result? || a.Cancel? || a.ForceStop?)
    ensures NoneReopened(s, s')
  {
  }

  lemma OthersReopenNone(c: Config, s: State, a: Action, s': State)
    requires Step(c, s, a, s') && (a.Advance? || a.Pop? || a.Launch? || a.EndLaunch?)
    ensures NoneReopened(s, s')
  {
  }

  lemma NoTwinsKept(s: State, s': State)
    requires NoTwins(s) && NoneReopened(s, s') && OriginsKept(s, s') && s'.store.tasks.Keys == s.store.tasks.Keys
    ensures NoTwins(s')
  {
    forall t, u ensures !Twins(s', t, u) {
      assert !Twins(s, t, u);
    }
  }

  /** Where there are no twins, a step makes none exactly when it does not start one. */
  lemma TwinsStepExactly(c: Config, s: State, a: Action, s': State)
    requires Inv(c, s) && NoTwins(s) && Step(c, s, a, s')
    ensures NoTwins(s') <==> !StartsTwin(s, a)
  {
    assert !a.Finish? ==> !StartsTwin(s, a);
    hide Inv, NoTwins, Step, StartsTwin, NoneReopened, OriginsKept;
    if a.Create? {
      TwinsCreate(c, s, a, s');
    } else if a.Finish? {
      TwinsFinish(c, s, a, s');
    } else {
      OriginsStep(c, s, a, s');
      OnlyCreateAddsRows(c, s, a, s');
      if a.Tick? || a.CancelBatch? {
        SweepsReopenNone(c, s, a, s');
      } else if a.Result? || a.Cancel? || a.ForceStop? {
        CallsReopenNone(c, s, a, s');
      } else {
        OthersReopenNone(c, s, a, s');
      }
      NoTwinsKept(s, s');
    }
  }

  lemma NoTwinsAtFirst(s: State)
    requires Init(s)
    ensures NoTwins(s)
  {
  }

  lemma {:induction false} NoTwinsUpTo(c: Config, states: seq<State>, actions: seq<Action>, i: nat)
    requires Run(c, states, actions) && i < |states|
    requires forall k | 0 <= k < i && k < |actions| :: !StartsTwin(states[k], actions[k])
    ensures NoTwins(states[i])
  {
    hide *;
    if i == 0 {
      StartsInit(c, states, actions);
      NoTwinsAtFirst(states[0]);
    } else {
      StepAt(c, states, actions, i);
      NoTwinsUpTo(c, states, actions, i - 1);
      InvRun(c, states, actions, i - 1);
      TwinsStepExactly(c, states[i - 1], actions[i - 1], states[i]);
    }
  }

  /**
   Over all runs: no device ever has two open tasks for the same script version, exactly when the
   dispatcher never delivers a task while another open task of its device asks for the same version.
   */
  lemma NoTwinsExactly(c: Config, states: seq<State>, actions: seq<Action>)
    requires Run(c, states, actions)
    ensures |states| == |actions| + 1
    ensures (forall s | s in states :: NoTwins(s))
       <==> forall k | 0 <= k < |actions| :: !StartsTwin(states[k], actions[k])
  {
    hide Step, Inv, NoTwins, StartsTwin, Init;
    if forall k | 0 <= k < |actions| :: !StartsTwin(states[k], actions[k]) {
      forall i | 0 <= i < |states| ensures NoTwins(states[i]) {
        NoTwinsUpTo(c, states, actions, i);
      }
    }
    if forall s | s in states :: NoTwins(s) {
      forall k | 0 <= k < |actions| ensures !StartsTwin(states[k], actions[k]) {
        assert states[k] in states && states[k + 1] in states;
        StepAt(c, states, actions, k + 1);
        InvRun(c, states, actions, k);
        TwinsStepExactly(c, states[k], actions[k], states[k + 1]);
      }
    }
  }

  /** A twin is started only from a task that was given up: QUEUED tasks have no open twin. */
  lemma OnlyGivenUpTasksHaveTwins(c: Config, s: State, a: Action)
    requires Inv(c, s) && NoTwins(s) && StartsTwin(s, a)
    ensures Parked(s, s.flight.value.task)
  {
    var f := s.flight.value;
    var u :| Rival(s, f.task, u);
    assert !Twins(s, f.task, u);
  }
}
