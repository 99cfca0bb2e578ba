/**
 Event triggers (`_check_event_triggers`, backend/services/event_reactor.py): which ones fire on an
 event, and how often one of them can fire over a run.
 */
module Triggers {
  import opened Prelude
  import opened JsonTrees
  import opened TriggerTemplates

  type TriggerId = nat
  type OrgId = nat
  type PipelineId = nat
  type Time = real

  datatype Trigger = Trigger(
    org: OrgId, pattern: string, pipeline: PipelineId, template: Json, active: bool,
    cooldown: nat, last: Option<Time>, total: nat)

  /** An event as one trigger sees it: is it meant, and does its pipeline start. */
  datatype Check = Check(now: Time, hit: bool, started: bool)

  predicate Cooling(t: Trigger, now: Time) {
    t.last.Some? && t.cooldown > 0 && now - t.last.value < t.cooldown as real
  }

  predicate Fires(t: Trigger, c: Check) {
    c.hit && !Cooling(t, c.now) && c.started
  }

  function After(t: Trigger, c: Check): Trigger {
    if Fires(t, c) then t.(last := Some(c.now), total := t.total + 1) else t
  }

  // ── one event ──

  /** A pipeline run that was started, with its rendered parameters. */
  datatype Launch = Launch(trigger: TriggerId, pipeline: PipelineId, params: Json)

  /** The event as the parts of the system outside the trigger table see it. */
  datatype Signal = Signal(
    org: OrgId, kind: string, rules: seq<Rule>, now: Time,
    matches: (string, string) -> bool, startable: set<TriggerId>)

  function Seen(id: TriggerId, t: Trigger, s: Signal): Check {
    Check(s.now, t.org == s.org && t.active && s.matches(s.kind, t.pattern), id in s.startable)
  }

  predicate FiresOn(rows: map<TriggerId, Trigger>, s: Signal, id: TriggerId) {
    id in rows && Fires(rows[id], Seen(id, rows[id], s))
  }

  /** What the triggers found launch, in that order. */
  function Launches(rows: map<TriggerId, Trigger>, s: Signal, found: seq<TriggerId>): seq<Launch> {
    if found == [] then []
    else
      var id := found[|found| - 1];
      Launches(rows, s, found[..|found| - 1])
      + if FiresOn(rows, s, id) then [Launch(id, rows[id].pipeline, Render(rows[id].template, s.rules))] else []
  }

  lemma LaunchesNext(rows: map<TriggerId, Trigger>, s: Signal, found: seq<TriggerId>, n: nat)
    requires n < |found|
    ensures Launches(rows, s, found[..n + 1])
         == if FiresOn(rows, s, found[n])
            then Launches(rows, s, found[..n])
                 + [Launch(found[n], rows[found[n]].pipeline, Render(rows[found[n]].template, s.rules))]
            else Launches(rows, s, found[..n])
  {
    assert found[..n + 1][..n] == found[..n];
  }

  /** The query's answer: the active triggers of the organisation, each once, in some order. */
  ghost predicate Found(rows: map<TriggerId, Trigger>, s: Signal, found: seq<TriggerId>) {
    && (forall i, k | 0 <= i < k < |found| :: found[i] != found[k])
    && (forall id :: id in found <==> id in rows && rows[id].org == s.org && rows[id].active)
  }

  /** The rows once the triggers in `done` have been looked at. */
  ghost predicate Stamped(before: map<TriggerId, Trigger>, rows: map<TriggerId, Trigger>, s: Signal,
                          done: seq<TriggerId>) {
    && rows.Keys == before.Keys
    && forall id | id in rows ::
         rows[id] == if id in done then After(before[id], Seen(id, before[id], s)) else before[id]
  }

  lemma StampedNext(before: map<TriggerId, Trigger>, rows: map<TriggerId, Trigger>, s: Signal, found: seq<TriggerId>,
                    n: nat)
    requires Found(before, s, found) && n < |found| && Stamped(before, rows, s, found[..n])
    ensures found[n] in rows && found[n] in before && rows[found[n]] == before[found[n]]
    ensures before[found[n]].org == s.org && before[found[n]].active
    ensures var after := After(before[found[n]], Seen(found[n], before[found[n]], s));
            Stamped(before, rows[found[n] := after], s, found[..n + 1])
  {
    var id := found[n];
    assert id in found && id !in found[..n];
    assert found[..n + 1] == found[..n] + [id];
    hide After, Seen;
  }

  /** What looking at the next trigger found does to the rows and to the launches. */
  lemma LookedAt(before: map<TriggerId, Trigger>, rows: map<TriggerId, Trigger>, s: Signal, found: seq<TriggerId>,
                 n: nat)
    requires Found(before, s, found) && n < |found| && Stamped(before, rows, s, found[..n])
    ensures found[n] in rows && rows[found[n]].org == s.org && rows[found[n]].active
    ensures var id, t := found[n], rows[found[n]];
            if Fires(t, Seen(id, t, s)) then
              && Stamped(before, rows[id := t.(last := Some(s.now), total := t.total + 1)], s, found[..n + 1])
              && Launches(before, s, found[..n + 1])
                 == Launches(before, s, found[..n]) + [Launch(id, t.pipeline, Render(t.template, s.rules))]
            else
              && Stamped(before, rows, s, found[..n + 1])
              && Launches(before, s, found[..n + 1]) == Launches(before, s, found[..n])
  {
    StampedNext(before, rows, s, found, n);
    LaunchesNext(before, s, found, n);
    hide Launches, Render, Cooling, Found, Stamped, Seen;
    var id, t := found[n], rows[found[n]];
    assert rows[id := t] == rows;
  }

  /** A trigger that was not found does not see the event as its own. */
  lemma AllStamped(before: map<TriggerId, Trigger>, rows: map<TriggerId, Trigger>, s: Signal, found: seq<TriggerId>)
    requires Found(before, s, found) && Stamped(before, rows, s, found)
    ensures rows.Keys == before.Keys
    ensures forall id | id in rows :: rows[id] == After(before[id], Seen(id, before[id], s))
  {
    hide Cooling;
    forall id | id in rows && id !in found ensures After(before[id], Seen(id, before[id], s)) == before[id] {
      assert !(before[id].org == s.org && before[id].active);
    }
  }

  class TriggerTable {
    var rows: map<TriggerId, Trigger>

    constructor ()
      ensures rows == map[]
    {
      rows := map[];
    }

    method CheckEventTriggers(s: Signal, found: seq<TriggerId>) returns (launched: seq<Launch>)
      requires Found(rows, s, found)
      modifies this
      ensures Stamped(old(rows), rows, s, found)
      ensures forall id | id in rows :: rows[id] == After(old(rows)[id], Seen(id, old(rows)[id], s))
      ensures launched == Launches(old(rows), s, found)
    {
      launched := [];
      for n := 0 to |found|
        invariant Stamped(old(rows), rows, s, found[..n])
        invariant launched == Launches(old(rows), s, found[..n])
      {
        LookedAt(old(rows), rows, s, found, n);
        hide Render, Launches, Stamped, Found;
        var id := found[n];
        var t := rows[id];
        if !s.matches(s.kind, t.pattern) {
          continue;
        }
        if t.last.Some? && t.cooldown > 0 {
          var elapsed := s.now - t.last.value;
          if elapsed < t.cooldown as real {
            continue;
          }
        }
        var params := Render(t.template, s.rules);
        if id in s.startable {
          launched := launched + [Launch(id, t.pipeline, params)];
          rows := rows[id := t.(last := Some(s.now), total := t.total + 1)];
        }
      }
      assert found[..|found|] == found;
      AllStamped(old(rows), rows, s, found);
      hide Stamped, After, Launches;
    }
  }

  /** Active, of the organisation, matching, with its cooldown over, and with a pipeline that starts. */
  predicate Due(rows: map<TriggerId, Trigger>, s: Signal, id: TriggerId) {
    && id in rows && rows[id].org == s.org && rows[id].active && s.matches(s.kind, rows[id].pattern)
    && (rows[id].last.Some? && rows[id].cooldown > 0 ==>
          s.now >= rows[id].last.value + rows[id].cooldown as real)
    && id in s.startable
  }

  ghost predicate HasLaunch(launched: seq<Launch>, id: TriggerId) {
    exists l :: l in launched && l.trigger == id
  }

  lemma DueFires(rows: map<TriggerId, Trigger>, s: Signal, id: TriggerId)
    ensures Due(rows, s, id) <==> FiresOn(rows, s, id)
  {
  }

  /** The pipeline of the trigger starts, with the parameters of its template. */
  predicate Starts(rows: map<TriggerId, Trigger>, s: Signal, l: Launch) {
    && l.trigger in rows && l.pipeline == rows[l.trigger].pipeline
    && l.params == MapStrings(rows[l.trigger].template, Loop(s.rules))
  }

  /**
   Exactly the triggers that are due launch, each of them once, with its own pipeline and template; they
   are stamped with the time and counted, and no other row changes.
   */
  lemma LaunchesExactly(rows: map<TriggerId, Trigger>, s: Signal, found: seq<TriggerId>)
    requires Found(rows, s, found)
    ensures var launched := Launches(rows, s, found);
            && (forall id :: HasLaunch(launched, id) <==> Due(rows, s, id))
            && (forall i, k | 0 <= i < k < |launched| :: launched[i].trigger != launched[k].trigger)
            && (forall l | l in launched :: Starts(rows, s, l))
    ensures forall rows' | Stamped(rows, rows', s, found) ::
              && rows'.Keys == rows.Keys
              && forall id | id in rows ::
                   rows'[id] == if Due(rows, s, id)
                                then rows[id].(last := Some(s.now), total := rows[id].total + 1)
                                else rows[id]
  {
    LaunchesOf(rows, s, found);
    forall id ensures Due(rows, s, id) <==> FiresOn(rows, s, id) {
      DueFires(rows, s, id);
    }
    forall id | FiresOn(rows, s, id) ensures id in found {}
    hide Due, Launches;
  }

  lemma {:induction false} LaunchesOf(rows: map<TriggerId, Trigger>, s: Signal, found: seq<TriggerId>)
    requires forall i, k | 0 <= i < k < |found| :: found[i] != found[k]
    ensures var launched := Launches(rows, s, found);
            && (forall id :: HasLaunch(launched, id) <==> id in found && FiresOn(rows, s, id))
            && (forall i, k | 0 <= i < k < |launched| :: launched[i].trigger != launched[k].trigger)
            && (forall l | l in launched :: Starts(rows, s, l))
  {
    if found == [] {
    } else {
      hide FiresOn, MapStrings;
      var last := |found| - 1;
      LaunchesOf(rows, s, found[..last]);
      assert found == found[..last] + [found[last]];
      var before, after := Launches(rows, s, found[..last]), Launches(rows, s, found);
      if FiresOn(rows, s, found[last]) {
        OneMoreLaunch(before, after[|after| - 1], after);
        forall i | 0 <= i < |before| ensures before[i].trigger in found[..last] {
          assert HasLaunch(before, before[i].trigger);
        }
      } else {
        assert after == before;
      }
    }
  }

  lemma OneMoreLaunch(before: seq<Launch>, l: Launch, after: seq<Launch>)
    requires after == before + [l]
    ensures forall id :: HasLaunch(after, id) <==> HasLaunch(before, id) || id == l.trigger
  {
    assert forall m :: m in after <==> m in before || m == l;
  }

  // ── runs of one trigger ──

  function AfterAll(t: Trigger, checks: seq<Check>): Trigger {
    if checks == [] then t
    else After(AfterAll(t, checks[..|checks| - 1]), checks[|checks| - 1])
  }

  /** The times at which it fired. */
  function Firings(t: Trigger, checks: seq<Check>): seq<Time> {
    if checks == [] then []
    else
      var n := |checks| - 1;
      Firings(t, checks[..n]) + if Fires(AfterAll(t, checks[..n]), checks[n]) then [checks[n].now] else []
  }

  /** total_triggers counts the firings, and last_triggered_at is the latest of them. */
  lemma {:induction false} TotalCountsFirings(t: Trigger, checks: seq<Check>)
    ensures AfterAll(t, checks).total == t.total + |Firings(t, checks)|
    ensures AfterAll(t, checks).cooldown == t.cooldown
    ensures var f := Firings(t, checks);
            AfterAll(t, checks).last == if f == [] then t.last else Some(f[|f| - 1])
  {
    if checks == [] {
    } else {
      TotalCountsFirings(t, checks[..|checks| - 1]);
    }
  }

  /** Each time at least c after every earlier one. */
  ghost predicate Spaced(f: seq<Time>, c: real) {
    forall i, k | 0 <= i < k < |f| :: f[k] - f[i] >= c
  }

  /** Firings are at least `cooldown` apart, whatever the clock does in between. */
  lemma {:induction false} FiringsAreSpaced(t: Trigger, checks: seq<Check>)
    requires t.cooldown > 0
    ensures Spaced(Firings(t, checks), t.cooldown as real)
  {
    if checks == [] {
    } else {
      FiringsAreSpaced(t, checks[..|checks| - 1]);
      TotalCountsFirings(t, checks[..|checks| - 1]);
    }
  }

  /** How many of the times lie in the closed interval from lo to hi. */
  function CountIn(f: seq<Time>, lo: Time, hi: Time): nat {
    if f == [] then 0
    else CountIn(f[..|f| - 1], lo, hi) + if lo <= f[|f| - 1] <= hi then 1 else 0
  }

  /** The time that n firings need at least. */
  function Gaps(n: nat, c: real): real {
    (n - 1) as real * c
  }

  lemma OneMoreGap(n: nat, c: real)
    ensures Gaps(n + 1, c) == Gaps(n, c) + c
    ensures Gaps(1, c) == 0.0
  {
  }

  /** The latest of n spaced times in an interval lies n - 1 gaps above its start. */
  lemma {:induction false} LatestIn(f: seq<Time>, c: real, lo: Time, hi: Time) returns (k: nat)
    requires c > 0.0 && Spaced(f, c)
    ensures var n := CountIn(f, lo, hi); n > 0 ==> k < |f| && lo + Gaps(n, c) <= f[k] <= hi
  {
    k := 0;
    if f == [] {
    } else {
      var last := |f| - 1;
      k := LatestIn(f[..last], c, lo, hi);
      if lo <= f[last] <= hi {
        OneMoreGap(CountIn(f[..last], lo, hi), c);
        hide Gaps;
        k := last;
      }
    }
  }

  /** n firings of one trigger within an interval need (n - 1) * cooldown seconds. */
  lemma CooldownBoundsWindow(t: Trigger, checks: seq<Check>, lo: Time, hi: Time)
    requires t.cooldown > 0
    ensures var n := CountIn(Firings(t, checks), lo, hi);
            n > 0 ==> Gaps(n, t.cooldown as real) <= hi - lo
  {
    FiringsAreSpaced(t, checks);
    hide Gaps;
    var k := LatestIn(Firings(t, checks), t.cooldown as real, lo, hi);
  }

  // ── the hourly limit, which the code does not check ──

  const HOUR := 3600.0

  /** No run of a new trigger with this cooldown fires more than `limit` times within an hour. */
  ghost predicate HourlyLimitHolds(cooldown: nat, limit: nat) {
    forall t: Trigger, checks: seq<Check>, lo: Time | t.cooldown == cooldown && t.last.None? ::
      PerHour(t, checks, lo) <= limit
  }

  function PerHour(t: Trigger, checks: seq<Check>, lo: Time): nat {
    CountIn(Firings(t, checks), lo, lo + HOUR)
  }

  /** The time of the i-th event when they are `cooldown` seconds apart. */
  function Beat(cooldown: nat, i: nat): Time { (i * cooldown) as real }

  lemma NextBeat(cooldown: nat, i: nat)
    ensures Beat(cooldown, i + 1) - Beat(cooldown, i) == cooldown as real
  {
    assert (i + 1) * cooldown == i * cooldown + cooldown;
  }

  /** Events `cooldown` seconds apart that all match. */
  function Steady(cooldown: nat, n: nat): seq<Check> {
    if n == 0 then [] else Steady(cooldown, n - 1) + [Check(Beat(cooldown, n - 1), true, true)]
  }

  /** Times 0, cooldown, 2 * cooldown, ... */
  ghost predicate OnBeat(f: seq<Time>, cooldown: nat, n: nat) {
    |f| == n && forall i: nat | i < n :: f[i] == Beat(cooldown, i)
  }

  lemma {:induction false} SteadyFires(t: Trigger, n: nat)
    requires t.last.None?
    ensures OnBeat(Firings(t, Steady(t.cooldown, n)), t.cooldown, n)
  {
    if n == 0 {
    } else {
      var before, checks := Steady(t.cooldown, n - 1), Steady(t.cooldown, n);
      SteadyFires(t, n - 1);
      SteadyLength(t.cooldown, n - 1);
      assert checks[..|checks| - 1] == before;
      BeatFires(t, before, n);
      hide Beat, Fires, Steady, AfterAll;
      assert Firings(t, checks) == Firings(t, before) + [Beat(t.cooldown, n - 1)];
    }
  }

  /** An event on the next beat finds the trigger ready again. */
  lemma BeatFires(t: Trigger, before: seq<Check>, n: nat)
    requires t.last.None? && n > 0 && OnBeat(Firings(t, before), t.cooldown, n - 1)
    ensures Fires(AfterAll(t, before), Check(Beat(t.cooldown, n - 1), true, true))
  {
    TotalCountsFirings(t, before);
    if n > 1 {
      NextBeat(t.cooldown, n - 2);
    }
    hide Beat, AfterAll, Firings;
  }

  lemma {:induction false} SteadyLength(cooldown: nat, n: nat)
    ensures |Steady(cooldown, n)| == n
  {
    if n == 0 {
    } else {
      SteadyLength(cooldown, n - 1);
    }
  }

  lemma {:induction false} AllCounted(f: seq<Time>, lo: Time, hi: Time)
    requires forall i | 0 <= i < |f| :: lo <= f[i] <= hi
    ensures CountIn(f, lo, hi) == |f|
  {
    if f == [] {
    } else {
      AllCounted(f[..|f| - 1], lo, hi);
    }
  }

  /**
   max_triggers_per_hour is stored but never looked at: a positive limit holds over all runs exactly
   when the cooldown alone enforces it. (A stored 0 means no limit.)
   */
  lemma HourlyLimitExactly(cooldown: nat, limit: nat)
    ensures HourlyLimitHolds(cooldown, limit) <==> limit * cooldown > 3600
  {
    if limit * cooldown > 3600 {
      forall t: Trigger, checks: seq<Check>, lo: Time | t.cooldown == cooldown && t.last.None?
        ensures PerHour(t, checks, lo) <= limit
      {
        CooldownIsEnough(t, checks, lo, limit);
      }
    } else {
      CooldownIsTooShort(cooldown, limit);
    }
  }

  lemma CooldownIsEnough(t: Trigger, checks: seq<Check>, lo: Time, limit: nat)
    requires limit * t.cooldown > 3600
    ensures PerHour(t, checks, lo) <= limit
  {
    var c, n := t.cooldown, PerHour(t, checks, lo);
    CooldownBoundsWindow(t, checks, lo, lo + HOUR);
    GapsFillHour(n, c, limit);
    hide *;
  }

  lemma GapsFillHour(n: nat, c: nat, limit: nat)
    requires limit * c > 3600
    ensures n > limit ==> Gaps(n, c as real) > HOUR
  {
    if n > limit {
      assert (n - 1) * c >= limit * c;
      assert (n - 1) as real * c as real == ((n - 1) * c) as real;
    }
  }

  lemma CooldownIsTooShort(cooldown: nat, limit: nat)
    requires limit * cooldown <= 3600
    ensures !HourlyLimitHolds(cooldown, limit)
  {
    var t := Trigger(0, "", 0, Null, true, cooldown, None, 0);
    var checks := Steady(cooldown, limit + 1);
    SteadyFires(t, limit + 1);
    forall i: nat | i <= limit ensures 0 <= i * cooldown <= limit * cooldown {}
    AllCounted(Firings(t, checks), 0.0, 0.0 + HOUR);
    assert PerHour(t, checks, 0.0) == limit + 1;
  }
}
