/**
 Runs of the event reactor alone: one open session per account, exact counters, and what a ban
 report costs in free accounts.
 */
module ReactorRuns {
  import opened Prelude
  import opened AccountEffects

  // ── sessions ──

  predicate Open(sessions: Sessions, s: SessionId) {
    s in sessions && sessions[s].endedAt.None?
  }

  /** No account has two open sessions, and a free account has none. */
  ghost predicate OneSession(db: Db) {
    && (forall s, t | Open(db.sessions, s) && Open(db.sessions, t)
                      && db.sessions[s].account == db.sessions[t].account :: s == t)
    && (forall s | Open(db.sessions, s) :: !IsFree(db.accounts, db.sessions[s].account))
  }

  predicate IsFree(accounts: Accounts, x: AccountId) {
    x in accounts && accounts[x].status == Free
  }

  /** The ended sessions of an account. */
  function EndedOf(sessions: Sessions, x: AccountId): set<SessionId> {
    set s | s in sessions && sessions[s].account == x && sessions[s].endedAt.Some?
  }

  lemma LookupIsSingle(db: Db, id: AccountId, org: OrgId)
    requires OneSession(db)
    ensures |OpenSessions(db.sessions, id, org)| <= 1
  {
    var open := OpenSessions(db.sessions, id, org);
    if open != {} {
      var s :| s in open;
      assert forall t | t in open :: Open(db.sessions, t) && Open(db.sessions, s) && t == s;
      assert open == {s};
    }
  }

  lemma SessionEndedKeeps(db: Db, id: AccountId, org: OrgId, reason: EndReason, at: Time)
    requires OneSession(db)
    ensures SessionEnded(db, id, org, reason, at).Some?
    ensures OneSession(SessionEnded(db, id, org, reason, at).value)
  {
    LookupIsSingle(db, id, org);
    var after := SessionEnded(db, id, org, reason, at).value;
    assert forall s | Open(after.sessions, s) :: Open(db.sessions, s) && after.sessions[s] == db.sessions[s];
    assert forall x | IsFree(after.accounts, x) :: IsFree(db.accounts, x);
  }

  lemma ReactedKeeps(db: Db, e: Event)
    requires OneSession(db)
    ensures OneSession(Reacted(db, e))
  {
    assert forall x | IsFree(Reacted(db, e).accounts, x) :: IsFree(db.accounts, x);
  }

  lemma ClosedKeeps(db: Db, e: Event)
    requires OneSession(db)
    ensures Closed(db, e).Some? && OneSession(Closed(db, e).value)
  {
    ReactedKeeps(db, e);
    if SessionEnd(e.kind).Some? && e.account.Some? {
      SessionEndedKeeps(Reacted(db, e), e.account.value, e.org, SessionEnd(e.kind).value, e.at);
    }
  }

  lemma RotatedKeeps(db: Db, e: Event)
    requires OneSession(db) && e.session !in db.sessions
    requires e.pick.Some? ==> IsFree(db.accounts, e.pick.value)
    ensures OneSession(Rotated(db, e))
  {
    var after := Rotated(db, e);
    assert forall s | Open(after.sessions, s) ::
        s == e.session || (Open(db.sessions, s) && after.sessions[s] == db.sessions[s]);
    assert forall x | IsFree(after.accounts, x) :: IsFree(db.accounts, x);
  }

  /** The single-row session lookup never raises, and both session properties survive the event. */
  lemma EventKeepsSessions(db: Db, e: Event)
    requires OneSession(db) && Possible(db, e)
    ensures Processed(db, e).Some? && OneSession(Processed(db, e).value)
  {
    ClosedKeeps(db, e);
    if Rotates(e) {
      RotatedKeeps(Closed(db, e).value, e);
    }
  }

  // ── runs of the reactor ──

  /** The reactor handles the events one after another. */
  ghost predicate Handles(states: seq<Db>, events: seq<Event>) {
    && |states| == |events| + 1
    && forall i | 0 <= i < |events| :: Handled(states[i], events[i], states[i + 1])
  }

  ghost predicate Handled(db: Db, e: Event, next: Db) {
    Possible(db, e) && Processed(db, e) == Some(next)
  }

  lemma {:induction false} SessionsStaySingle(states: seq<Db>, events: seq<Event>)
    requires Handles(states, events) && OneSession(states[0])
    ensures forall i | 0 <= i < |states| :: OneSession(states[i])
  {
    for n := 0 to |events|
      invariant forall i | 0 <= i <= n :: OneSession(states[i])
    {
      assert Handled(states[n], events[n], states[n + 1]);
      EventKeepsSessions(states[n], events[n]);
    }
  }

  // ── counters ──

  predicate IsBanOf(accounts: Accounts, e: Event, x: AccountId) {
    e.kind == AccountBanned && e.account == Some(x) && x in accounts && accounts[x].org == e.org
  }

  /** What the counters of one account say, and who owns it. */
  ghost predicate Accounted(before: Db, after: Db, x: AccountId, bans: nat)
    requires x in before.accounts
  {
    && x in after.accounts && after.accounts[x].org == before.accounts[x].org
    && after.accounts[x].totalSessions - before.accounts[x].totalSessions
       == |EndedOf(after.sessions, x)| - |EndedOf(before.sessions, x)|
    && after.accounts[x].totalBans == before.accounts[x].totalBans + bans
  }

  lemma SessionEndedCounts(db: Db, id: AccountId, org: OrgId, reason: EndReason, at: Time, x: AccountId)
    requires x in db.accounts
    ensures SessionEnded(db, id, org, reason, at).Some? ==>
              Accounted(db, SessionEnded(db, id, org, reason, at).value, x, 0)
  {
    var open := OpenSessions(db.sessions, id, org);
    if open != {} && |open| <= 1 {
      var after := SessionEnded(db, id, org, reason, at).value;
      TheOnlyOne(open);
      var s :| s in open && open == {s};
      assert after.sessions == db.sessions[s := db.sessions[s].(endedAt := Some(at), reason := Some(reason))];
      if x == id {
        assert EndedOf(after.sessions, x) == EndedOf(db.sessions, x) + {s};
      } else {
        assert EndedOf(after.sessions, x) == EndedOf(db.sessions, x);
      }
    }
  }

  lemma RotatedCounts(db: Db, e: Event, x: AccountId)
    requires x in db.accounts && e.session !in db.sessions
    ensures Accounted(db, Rotated(db, e), x, 0)
  {
    assert EndedOf(Rotated(db, e).sessions, x) == EndedOf(db.sessions, x);
  }

  /** One event adds a session end for each session it ended, and a ban exactly to the banned account. */
  lemma EventCounts(db: Db, e: Event, x: AccountId)
    requires x in db.accounts && Possible(db, e) && Processed(db, e).Some?
    ensures Accounted(db, Processed(db, e).value, x, if IsBanOf(db.accounts, e, x) then 1 else 0)
  {
    var reacted := Reacted(db, e);
    assert Accounted(db, reacted, x, if IsBanOf(db.accounts, e, x) then 1 else 0);
    hide Reacted;
    if SessionEnd(e.kind).Some? && e.account.Some? {
      SessionEndedCounts(reacted, e.account.value, e.org, SessionEnd(e.kind).value, e.at, x);
    }
    if Rotates(e) {
      RotatedCounts(Closed(db, e).value, e, x);
    }
  }

  /** How many of the events are ban reports that reach account x. */
  function Bans(accounts: Accounts, events: seq<Event>, x: AccountId): nat {
    if events == [] then 0
    else Bans(accounts, events[..|events| - 1], x) + if IsBanOf(accounts, events[|events| - 1], x) then 1 else 0
  }

  /**
   Over any run that starts with sound sessions, total_sessions grows by exactly the number of
   sessions of the account that ended, and total_bans by exactly the ban reports that reach it.
   */
  lemma {:induction false} CountersFollowEvents(states: seq<Db>, events: seq<Event>, x: AccountId)
    requires Handles(states, events) && x in states[0].accounts
    ensures Accounted(states[0], states[|events|], x, Bans(states[0].accounts, events, x))
  {
    var first := states[0];
    for n := 0 to |events|
      invariant Accounted(first, states[n], x, Bans(first.accounts, events[..n], x))
    {
      assert Handled(states[n], events[n], states[n + 1]);
      EventCounts(states[n], events[n], x);
      assert events[..n + 1][..n] == events[..n];
    }
    assert events[..|events|] == events;
  }

  // ── rotation ──

  function FreeOf(accounts: Accounts): set<AccountId> {
    set x | x in accounts && accounts[x].status == Free
  }

  /** The account whose status the event changes, if any. */
  function Hit(accounts: Accounts, e: Event): set<AccountId> {
    if Reaction(e.kind).Some? && e.account.Some? && e.account.value in accounts
       && accounts[e.account.value].org == e.org
    then {e.account.value}
    else {}
  }

  function Replacement(e: Event): set<AccountId> {
    if Rotates(e) && e.pick.Some? then {e.pick.value} else {}
  }

  lemma ClosedFree(db: Db, e: Event)
    requires Closed(db, e).Some?
    ensures FreeOf(Closed(db, e).value.accounts) == FreeOf(db.accounts) - Hit(db.accounts, e)
  {
    assert FreeOf(Reacted(db, e).accounts) == FreeOf(db.accounts) - Hit(db.accounts, e);
    hide Reacted;
    assert FreeOf(Closed(db, e).value.accounts) == FreeOf(Reacted(db, e).accounts);
  }

  /** Steps 2 and 3 do not change who may replace the banned account. */
  lemma SameCandidates(db: Db, e: Event, x: AccountId)
    requires Rotates(e) && Closed(db, e).Some?
    ensures Candidate(Closed(db, e).value.accounts, x, e.org, e.account.value)
       <==> Candidate(db.accounts, x, e.org, e.account.value)
    ensures x != e.account.value && x in db.accounts ==>
              x in Closed(db, e).value.accounts && Closed(db, e).value.accounts[x] == db.accounts[x]
  {
    var b := e.account.value;
    var reacted := Reacted(db, e);
    assert reacted.accounts.Keys == db.accounts.Keys;
    assert b in db.accounts ==> reacted.accounts[b].game == db.accounts[b].game;
    hide Reacted;
    assert Closed(db, e).value.accounts.Keys == reacted.accounts.Keys;
  }

  /**
   A ban report rotates exactly when some other account of the same game is free in the reporting
   organisation; the replacement is an oldest such account, and ends up in use on the reporting
   device with the new session open.
   */
  lemma RotatesExactly(db: Db, e: Event)
    requires Rotates(e) && Possible(db, e) && Processed(db, e).Some?
    ensures e.pick.Some? <==> exists x :: Candidate(db.accounts, x, e.org, e.account.value)
    ensures e.pick.Some? ==>
              var x, after := e.pick.value, Processed(db, e).value;
              && Candidate(db.accounts, x, e.org, e.account.value)
              && (forall y | Candidate(db.accounts, y, e.org, e.account.value) ::
                    db.accounts[x].createdAt <= db.accounts[y].createdAt)
              && after.accounts[x] == db.accounts[x].(
                   status := InUse, device := Some(e.device), assignedAt := Some(e.at))
              && e.session in after.sessions && e.session !in db.sessions
              && after.sessions[e.session] == Session(e.org, x, e.device, e.at, None, None)
  {
    var b := e.account.value;
    forall y ensures Candidate(Closed(db, e).value.accounts, y, e.org, b) <==> Candidate(db.accounts, y, e.org, b)
    {
      SameCandidates(db, e, y);
    }
    if e.pick.Some? {
      SameCandidates(db, e, e.pick.value);
      forall y | Candidate(db.accounts, y, e.org, b)
        ensures db.accounts[e.pick.value].createdAt <= db.accounts[y].createdAt
      {
        SameCandidates(db, e, y);
      }
    }
  }

  /** An event takes out of the free accounts exactly the one it hits and the one it hands out. */
  lemma EventFree(db: Db, e: Event)
    requires Possible(db, e) && Processed(db, e).Some?
    ensures FreeOf(Processed(db, e).value.accounts) == FreeOf(db.accounts) - Hit(db.accounts, e) - Replacement(e)
    ensures Replacement(e) <= FreeOf(db.accounts) - Hit(db.accounts, e)
  {
    ClosedFree(db, e);
    hide Closed;
    if Rotates(e) {
      var closed := Closed(db, e).value;
      assert FreeOf(Rotated(closed, e).accounts) == FreeOf(closed.accounts) - Replacement(e);
    }
  }

  /** Successful rotations among the events. */
  function Rotations(events: seq<Event>): nat {
    if events == [] then 0 else Rotations(events[..|events| - 1]) + |Replacement(events[|events| - 1])|
  }

  /** Status reactions that hit an account which was free at that moment. */
  function FreeHits(states: seq<Db>, events: seq<Event>): nat
    requires |states| == |events| + 1
  {
    if events == [] then 0
    else
      var n := |events| - 1;
      FreeHits(states[..n + 1], events[..n]) + |Hit(states[n].accounts, events[n]) * FreeOf(states[n].accounts)|
  }

  lemma EventFreeCount(db: Db, e: Event)
    requires Possible(db, e) && Processed(db, e).Some?
    ensures |FreeOf(Processed(db, e).value.accounts)|
         == |FreeOf(db.accounts)| - |Hit(db.accounts, e) * FreeOf(db.accounts)| - |Replacement(e)|
  {
    EventFree(db, e);
    LeftOver(FreeOf(db.accounts), Hit(db.accounts, e), Replacement(e));
  }

  lemma LeftOver<T>(all: set<T>, hit: set<T>, handed: set<T>)
    requires handed <= all - hit
    ensures |all - hit - handed| == |all| - |hit * all| - |handed|
  {
    assert all == (all - hit) + (hit * all);
    assert |all| == |all - hit| + |hit * all|;
    assert all - hit == (all - hit - handed) + handed;
    assert |all - hit| == |all - hit - handed| + |handed|;
  }

  /** Over any run the free accounts fall by the rotations and by the free accounts that were hit. */
  lemma {:induction false} FreeFallsByRotations(states: seq<Db>, events: seq<Event>)
    requires Handles(states, events)
    ensures |FreeOf(states[|events|].accounts)|
         == |FreeOf(states[0].accounts)| - Rotations(events) - FreeHits(states, events)
  {
    if events == [] {
    } else {
      var n := |events| - 1;
      FreeFallsByRotations(states[..n + 1], events[..n]);
      assert Handled(states[n], events[n], states[n + 1]);
      EventFreeCount(states[n], events[n]);
    }
  }

  /** When only accounts that are not free get banned, it is exactly the successful rotations. */
  lemma {:induction false} BansOfUsedAccountsCostRotations(states: seq<Db>, events: seq<Event>)
    requires Handles(states, events)
    requires forall i | 0 <= i < |events| :: Hit(states[i].accounts, events[i]) !! FreeOf(states[i].accounts)
    ensures |FreeOf(states[|events|].accounts)| == |FreeOf(states[0].accounts)| - Rotations(events)
  {
    FreeFallsByRotations(states, events);
    NoFreeHits(states, events);
  }

  lemma {:induction false} NoFreeHits(states: seq<Db>, events: seq<Event>)
    requires |states| == |events| + 1
    requires forall i | 0 <= i < |events| :: Hit(states[i].accounts, events[i]) !! FreeOf(states[i].accounts)
    ensures FreeHits(states, events) == 0
  {
    if events == [] {
    } else {
      var n := |events| - 1;
      assert Hit(states[n].accounts, events[n]) * FreeOf(states[n].accounts) == {};
      NoFreeHits(states[..n + 1], events[..n]);
    }
  }
}
