/** The dispatcher's cycle is a run of the state machine. */
module TaskRefinement {
  import opened Prelude
  import opened TaskQueues
  import opened TaskEffects
  import opened TaskRuns
  import opened TaskServices

  /** The turn is for a device of the fleet, and its dispatch ends in time. */
  predicate TurnFits(c: Config, turn: Turn) {
    && turn.poppedAt <= turn.endedAt <= turn.poppedAt + c.maxDelay
    && (turn.online && turn.org.Some? ==> turn.device in c.orgOf && c.orgOf[turn.device] == turn.org.value)
  }

  /** The turns follow one another between two instants. */
  ghost predicate Cycle(c: Config, turns: seq<Turn>, from: Time, until: Time) {
    && from <= until
    && (forall k | 0 <= k < |turns| ::
          TurnFits(c, turns[k]) && from <= turns[k].poppedAt && turns[k].endedAt <= until)
    && (forall k | 0 < k < |turns| :: turns[k - 1].endedAt <= turns[k].poppedAt)
  }

  /** Whether the command of a dispatch reached its agent, if only a delivery does. */
  function Reached(outcome: Outcome): bool { outcome.Delivered? }

  lemma AdvanceTo(c: Config, s0: State, s: State, t: Time) returns (s': State)
    requires Leads(c, s0, s) && s.now <= t <= s.lastTick + TICK
    requires s.flight.Some? ==> t <= s.flight.value.poppedAt + c.maxDelay
    ensures Leads(c, s0, s') && s' == s.(now := t)
  {
    s' := s.(now := t);
    if s.now < t {
      assert Step(c, s, Advance(t - s.now), s');
      LeadsOn(c, s0, s, Advance(t - s.now), s');
    }
  }

  /** A turn is a `Pop` step and, if it got a task, a `Finish` step, with the clock moved in between. */
  lemma TurnIsPopThenFinish(c: Config, s0: State, s: State, turn: Turn) returns (s': State)
    requires Leads(c, s0, s) && s.flight.None? && TurnFits(c, turn)
    requires s.now <= turn.poppedAt && turn.endedAt <= s.lastTick + TICK
    ensures Leads(c, s0, s') && s'.store == Turned(s.store, turn)
    ensures s'.flight.None? && s'.lastTick == s.lastTick && s'.now <= turn.endedAt
  {
    hide Leads;
    if !turn.online || turn.org.None? {
      s' := s;
    } else {
      var s1 := AdvanceTo(c, s0, s, turn.poppedAt);
      var s2 := Next(c, s1, Pop(turn.device));
      LeadsOn(c, s0, s1, Pop(turn.device), s2);
      if s2.flight.None? {
        s' := s2;
      } else {
        var s3 := AdvanceTo(c, s0, s2, turn.endedAt);
        s' := FinishTurn(c, s0, s3, turn);
      }
    }
  }

  lemma FinishTurn(c: Config, s0: State, s: State, turn: Turn) returns (s': State)
    requires Leads(c, s0, s) && s.flight.Some? && s.flight.value.device == turn.device && s.now == turn.endedAt
    requires turn.device in c.orgOf && turn.org == Some(c.orgOf[turn.device])
    ensures Leads(c, s0, s') && s'.flight.None? && s'.lastTick == s.lastTick && s'.now == s.now
    ensures s'.store
         == Dispatched(s.store, s.flight.value.task, turn.org.value, turn.device, turn.outcome, turn.endedAt)
  {
    var finish := Finish(turn.outcome, Reached(turn.outcome));
    s' := Next(c, s, finish);
    assert Step(c, s, finish, s');
    LeadsOn(c, s0, s, finish, s');
  }

  /**
   A whole cycle of the dispatcher between two watchdog cycles is a run of pops and finishes with time
   passing in between, and leaves the store that `DispatchPendingTasks` leaves.
   */
  lemma {:induction false} CycleIsARun(c: Config, s: State, turns: seq<Turn>, until: Time) returns (s': State)
    requires s.flight.None? && Cycle(c, turns, s.now, until) && until <= s.lastTick + TICK
    ensures Leads(c, s, s') && s'.store == TurnedAll(s.store, turns)
    ensures s'.flight.None? && s'.lastTick == s.lastTick
    ensures s'.now <= if turns == [] then s.now else turns[|turns| - 1].endedAt
    decreases |turns|
  {
    if turns == [] {
      LeadsSelf(c, s);
      s' := s;
    } else {
      var last := |turns| - 1;
      hide Leads, Turned;
      var mid := CycleIsARun(c, s, turns[..last], until);
      assert TurnFits(c, turns[last]);
      s' := TurnIsPopThenFinish(c, s, mid, turns[last]);
    }
  }
}
